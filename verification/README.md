# Verified model of the LLVM IR debugger

The repository is a debugger for LLVM IR that speaks the GDB Remote Serial Protocol between a client and a stub, and
GDB/MI towards an editor. This project models the parts that everything else relies on and proves what they promise,
over every input, every run and every interleaving:

- the execution control of the stub: the server loop, the packet handler and `runCurrentInstr`, over a program whose
  instructions are an arbitrary function;
- the client and the stub at work together over two streams, with the stop handler that sends a request of its own from
  inside a receive call;
- the codecs: frames and checksums, the ordered dispatch of requests, register bytes, GDB/MI strings, lists and command
  lines, and the line buffer in front of the command input;
- the index of registers and source lines of a function, and the layout of the `g` reply;
- the two tables of breakpoints on either side.

What the source does by assigning to fields is done so here, by classes with the same fields (`GdbCmdHandlerLlvmIr`,
`GDBServerStub`, `GdbRemoteClient`, `TeeedFile`, `GdbInterpretState`); each method is proved to compute a function of the
old state, and what the source promises is proved about those functions. Loops of the source are loops here. Where both
ends or both runs share a function, it is also tied to what does not name it: lines and addresses, least byte counts,
alphabets, or the characters on the wire.

| files | what they model |
|---|---|
| `Wrappers`, `Digits`, `Text` | options, numerals, splitting and joining |
| `RemoteMessages`, `Streams`, `RegisterBytes`, `Requests`, `RequestTexts` | the codecs of the remote protocol |
| `LlvmIrRegs`, `RegisterLayout`, `RegisterSessions`, `RegisterTexts` | names, numbers, lines and bytes of registers |
| `Interpreter`, `CmdHandler`, `ServerStub`, `Connections` | the program, the handler, the stub, the sending end of a socket |
| `InstrOrder`, `StubRuns`, `ContinueStep`, `StopWire` | which instruction comes next; what holds in every session of the stub; what continue and step do, and what is seen of it |
| `RemoteClient`, `ServerAnswers`, `Session`, `SessionCalls`, `SessionRuns`, `SessionProgress`, `SessionQuiet`, `SessionBreakpoints` | the client, and both ends together |
| `MiLines`, `MiStrings`, `MiRecords`, `MiCommands`, `FilterArgs` | the command side's text |
| `BreakpointMirror` | the command side's breakpoints against the stub's |

Some claims one would make at first sight do not hold of the code. Each is stated as what does hold, with the exact
condition:

- a frame survives exactly if its payload has no `#` (`FrameRoundTripIff`);
- text cut in two gives the same packets exactly if the cut falls between two of them (`CutKeepsItemsIff`);
- a call takes its own reply exactly if no stop packet lies ahead of it (`CallTakesItsReplyIff`, `RepliesMatched`,
  `CrossedStopBreaksCall`), which a call that starts at rest can rely on (`QuietCallGetsItsReply`);
- the program counter in the `g` reply is the one in the `p0` reply exactly once the program has started
  (`LayoutAgrees`);
- a register description arrives exactly if the register's name has neither a semicolon nor a `#` (`DescRoundTrip`,
  `MarkInName`);
- deleting a breakpoint makes the two tables differ exactly if another breakpoint shares its line (`StaysMirrored`,
  `MirroredIff`, `TwoOnOneLine`);
- the digits a command line begins with are its token exactly if the line goes on behind them (`TokenIsDigitsIff`,
  `NumberLine`), and the parameters it splits off a name are never any (`ParametersAreNone`);
- of an ignored pattern only the first word is compared, so what is skipped are whole patterns exactly if at no word
  looked at a longer pattern is recognised by its first word alone (`SkipsWholeIff`, `LeavesTheSameIff`,
  `OtherValueIsDropped`).

`runCurrentInstr` refers to fields that were moved to the interpreter (`fn`, `nowTime`, `timeStep`,
`_runLlvmIrFunctionInstr`). The model takes it as meant: the function and the time step belong to the target, the time is
kept by the handler and starts at 0.

## Model

| member | source | states |
|---|---|---|
| Digits.ParseOfPrint | hwtHlsGdb/gdbRemoteClient.py:106-117 | a number printed in any base up to 16 is read back by `int` as the same number |
| Digits.PrintInjective | hwtHlsGdb/gdbCmdHandlerLlvmIr.py:74-77 | different counters give different suffixes |
| Digits.NumeralTexts | hwtHlsGdb/gdbRemoteClient.py:106-117 | numerals to the letter: 0x1F8 is `1f8`, 1250 is `1250`, both ways |
| Digits.NoLeadingZero | hwtHlsGdb/gdbRemoteClient.py:106-117 | only zero has a numeral that begins with a zero |
| Digits.CapitalsRead | hwtHlsGdb/gdbServerStub.py:228-231 | a number in capital digits is read alike |
| Digits.PrefixRead | hwtHlsGdb/gdbServerStub.py:228-231 | a hexadecimal number behind `0x` or `0X` is read alike |
| Text.JoinOfSplit | hwtHlsGdb/gdbMiMessages.py:72-73 | splitting at a separator loses nothing and leaves no separator in a piece |
| Text.SplitOfJoin | hwtHlsGdb/gdbMiMessages.py:72-73 | pieces without the separator are found again in their join |
| RemoteMessages.ComputeChecksum | hwtHlsGdb/gdbRemoteMessages.py:125-130 | the sum cut to eight bits after every character is the whole sum modulo 256, of which ChecksumLaws says what it is |
| RemoteMessages.ChecksumLaws | hwtHlsGdb/gdbRemoteMessages.py:125-130 | the checksum of one character is its code modulo 256, and checksums add up modulo 256 |
| RemoteMessages.ReplyFrames | hwtHlsGdb/gdbRemoteMessages.py:133-137 | the frames of `OK`, of the empty reply and of `E01` to the last character: `$OK#9a`, `$#00`, `$E01#a6` |
| RemoteMessages.StopFrames | hwtHlsGdb/gdbRemoteMessages.py:100-137 | the frames of the three stop packets: `$S05#b8`, `$S02#b5`, `$S09#bc` |
| RemoteMessages.HandshakeFrames | hwtHlsGdb/gdbRemoteClient.py:142-167 | the frames of the client's handshake: `$vMustReplyEmpty#3a`, `$QStartNoAckMode#b0` |
| RemoteMessages.FrameAcceptedIff | hwtHlsGdb/gdbRemoteMessages.py:143-153 | of all sums a frame may carry exactly its payload's is accepted; any other, and two letters that are no number, raise |
| RemoteMessages.FrameRoundTrip | hwtHlsGdb/gdbRemoteMessages.py:133-153 | a framed payload without `#` is read back with its length, whatever follows it |
| RemoteMessages.FrameRoundTripIff | hwtHlsGdb/gdbRemoteMessages.py:68-153 | nothing is escaped, so a payload survives framing exactly if it holds no `#` |
| RemoteMessages.CutFrameIsNoFrame | hwtHlsGdb/gdbRemoteMessages.py:140-153 | every proper prefix of a frame is no frame |
| RemoteMessages.FrameTailIsOther | hwtHlsGdb/gdbRemoteMessages.py:140-153 | what is left of a frame behind a cut is never read as its payload |
| Streams.ScanOfPrint | hwtHlsGdb/gdbServerStub.py:82-109 | text of items followed by any other text gives these items in order and then what the other text gives |
| Streams.CutKeepsItemsIff | hwtHlsGdb/gdbServerStub.py:82-109 | text received in two pieces gives the same items exactly if the cut is between two items |
| Streams.ScanStops | hwtHlsGdb/gdbServerStub.py:88-109 | text behind whole items that is no frame is dropped, and a frame with a wrong sum raises, after the items before it have been taken |
| RegisterBytes.FullMask | hwtHlsGdb/gdbCmdHandlerLlvmIr.py:226-228 | masking a value whose bits are all known changes nothing |
| RegisterBytes.BitOfAnd | hwtHlsGdb/gdbCmdHandlerLlvmIr.py:208-227 | the masked value has exactly the bits that value and mask both have |
| RegisterBytes.KnownBits | hwtHlsGdb/gdbCmdHandlerLlvmIr.py:208-227 | the number a register is reported with has exactly the bits of its value that are known |
| RegisterBytes.BitsDecide | hwtHlsGdb/gdbCmdHandlerLlvmIr.py:208-227 | there is one number with given bits |
| RegisterBytes.NumberOnWire | hwtHlsGdb/gdbCmdHandlerLlvmIr.py:210-230 | byte k of a number, counted from the least, is the digits 2k and 2k + 1 of the reply, the higher half first |
| RegisterBytes.ReadsIff | hwtHlsGdb/gdbRemoteClient.py:116-122 | the client reads a reply exactly if it is pairs of hexadecimal digits, small or capital |
| RegisterBytes.NumberRoundTrip | hwtHlsGdb/gdbRemoteClient.py:116-122 | little-endian bytes in hexadecimal read back as the number |
| RegisterBytes.RegisterValueEndToEnd | hwtHlsGdb/gdbCmdHandlerLlvmIr.py:224-231 | a masked value of any width passes bytes, hexadecimal, frame, checksum and the client unchanged, and its reply is never a stop, `OK` or an error |
| Requests.CommandRoundTrip | hwtHlsGdb/gdbServerStub.py:117-271 | the ordered tests send every request the client can print to its own branch, with the same numbers |
| Requests.RegisterInfoRequest | hwtHlsGdb/gdbServerStub.py:248-252 | the register-description request reaches its branch with the same index |
| Requests.OtherRequests | hwtHlsGdb/gdbServerStub.py:117-236 | breakpoint requests of every kind, address and size reach their branches with the same numbers, `?` and `g` theirs; reading memory and writing registers raise whatever follows |
| RequestTexts.FeatureRaisesIff | hwtHlsGdb/gdbServerStub.py:182-195 | a feature raises exactly if it ends in `-`, or does not end in `+` and splits at `=` into more than two pieces |
| RequestTexts.SupportedIff | hwtHlsGdb/gdbServerStub.py:179-197 | any list of features is answered exactly if none of them raises |
| RequestTexts.KeyAndValue | hwtHlsGdb/gdbServerStub.py:191-192 | a single feature `key=value`, such as `xmlRegisters=i386`, is answered unless the value ends in `-` |
| RequestTexts.AddressIgnored | hwtHlsGdb/gdbServerStub.py:161-177 | `s` and `c` with any address step and continue, and with letters that are no number they raise |
| RequestTexts.WriteMemoryRaises | hwtHlsGdb/gdbServerStub.py:148-159 | every request to write memory raises, whatever follows it |
| RequestTexts.ThreadsSelected | hwtHlsGdb/gdbServerStub.py:213-225 | selecting any thread for any of the three purposes is answered by `OK` |
| RequestTexts.QueriesAnswered | hwtHlsGdb/gdbServerStub.py:30-37 | the queries about threads and the ends of the lists are answered as fixed, whatever follows them |
| RequestTexts.TargetDescribed | hwtHlsGdb/gdbServerStub.py:238-258 | the queries about the target, its trace and any region of memory have their fixed replies |
| RequestTexts.OtherKindsUnknown | hwtHlsGdb/gdbServerStub.py:227-236 | breakpoints of a kind the protocol does not have are unknown |
| RequestTexts.OthersUnknown | hwtHlsGdb/gdbServerStub.py:268-271 | what begins like none of the requests is unknown |
| LlvmIrRegs.TakenBound | hwtHlsGdb/gdbCmdHandlerLlvmIr.py:74-78 | if the first n candidates are all taken, at least n names have been seen |
| LlvmIrRegs.PickName | hwtHlsGdb/gdbCmdHandlerLlvmIr.py:72-78 | the renaming loop ends, with the first candidate that is not taken |
| LlvmIrRegs.YieldRow | hwtHlsGdb/gdbCmdHandlerLlvmIr.py:51-82 | one instruction gives the next row and carries names, lines and indices on |
| LlvmIrRegs.LlvmIrIterRegs | hwtHlsGdb/gdbCmdHandlerLlvmIr.py:47-84 | the generator yields the rows of all instructions, of which IndexIsSound says what they are |
| LlvmIrRegs.NamesAreDistinct | hwtHlsGdb/gdbCmdHandlerLlvmIr.py:72-80 | no two registers yielded so far share a name |
| LlvmIrRegs.NameCharacters | hwtHlsGdb/gdbCmdHandlerLlvmIr.py:24 | the characters that stay in a clean name: letters, digits, the underscore |
| LlvmIrRegs.SanitizedIsClean | hwtHlsGdb/gdbCmdHandlerLlvmIr.py:71-72 | a clean name has the words of the name, with one underscore for each run of other characters |
| LlvmIrRegs.OwnNamesKept | hwtHlsGdb/gdbCmdHandlerLlvmIr.py:70-80 | if the instructions' names differ, and names are not cleaned, each register has its instruction's own name |
| LlvmIrRegs.LineIdentifiesInstr | hwtHlsGdb/gdbCmdHandlerLlvmIr.py:56-84 | two instructions have the same line, and so the same address, exactly if they are one |
| LlvmIrRegs.IndexIsSound | hwtHlsGdb/gdbCmdHandlerLlvmIr.py:47-84 | for every function: a register's name is its instruction's own name, or the clean form of it, if no earlier row has it, and else that with `_i` for the least i from 1 on that is free; distinct names, consecutive register numbers, and for the j-th instruction, in block b, row j and line offset + j + 2b |
| RegisterLayout.LayoutAgrees | hwtHlsGdb/gdbCmdHandlerLlvmIr.py:196-231 | the `g` reply cut at the announced offset and size is the `p` reply, for every index, except the program counter before the first run |
| RegisterLayout.RegisterNumbered | hwtHlsGdb/gdbCmdHandlerLlvmIr.py:112-126 | register k + 1 is the row with that number, and has width, name and line of its instruction |
| RegisterLayout.OffsetsAddUp | hwtHlsGdb/gdbCmdHandlerLlvmIr.py:108-126 | the program counter has 64 bits at offset 0, the first register offset 8, each register its instruction's width, and the next one lies behind it by the least n with width <= 8n |
| RegisterLayout.ReplyLengths | hwtHlsGdb/gdbCmdHandlerLlvmIr.py:215-231 | the `p` reply has two digits for each of the least number of bytes that hold the announced width |
| RegisterLayout.CounterBeforeRun | hwtHlsGdb/gdbCmdHandlerLlvmIr.py:200-223 | before the first run `g` begins with 16 zeros, and `p0` reads as eight times the first line |
| RegisterLayout.NamesAnnounced | hwtHlsGdb/gdbCmdHandlerLlvmIr.py:112-122 | if the instructions' names differ, each register is announced by its instruction's name |
| RegisterSessions.LayoutAgreesInSessions | hwtHlsGdb/gdbCmdHandlerLlvmIr.py:104-231 | the same in every session of the stub, given instructions that keep registers in their types |
| RegisterSessions.RegisterIsReported | hwtHlsGdb/gdbCmdHandlerLlvmIr.py:215-231 | in every session what the client reads in the reply for a register has exactly those bits of its value that are known, and it never takes the reply for a stop |
| RegisterTexts.DescRoundTrip | hwtHlsGdb/gdbCmdHandlerLlvmIr.py:108-122 | the framed text of a description, whatever follows it, is read back as its name, width and offset exactly if the name holds neither a semicolon nor a `#` |
| RegisterTexts.MarkInName | hwtHlsGdb/gdbCmdHandlerLlvmIr.py:59-72 | the name `a#b`, which LLVM prints in quotes, has no semicolon, and no description of it arrives |
| RegisterTexts.RepliesAgree | hwtHlsGdb/gdbServerStub.py:122-275 | in every session, for every register: what arrives of the three framed replies is the description, and a `g` reply of which the announced part is the `p` reply, exactly if the name is plain and it is not the program counter before the first run |
| CmdHandler.SetUpTables | hwtHlsGdb/gdbCmdHandlerLlvmIr.py:107-126 | the loop fills registers, descriptions, lines, values and offsets from the rows |
| CmdHandler.GdbCmdHandlerLlvmIr.FillTables | hwtHlsGdb/gdbCmdHandlerLlvmIr.py:112-126 | the fields filled from the function's rows are the tables that describe it |
| CmdHandler.SessionLines | hwtHlsGdb/gdbCmdHandlerLlvmIr.py:111-115 | the line table has every instruction, with its own line |
| CmdHandler.InitialRegsWellTyped | hwtHlsGdb/gdbCmdHandlerLlvmIr.py:106-125 | a session starts with every register in its type |
| CmdHandler.RegistersStartAtZero | hwtHlsGdb/gdbCmdHandlerLlvmIr.py:125-231 | before any instruction has run every register reads as zeros, two for each of its least bytes |
| CmdHandler.RegisterInfoIff | hwtHlsGdb/gdbCmdHandlerLlvmIr.py:291-295 | an index is answered by E01 exactly if it lies behind the last register |
| CmdHandler.GdbCmdHandlerLlvmIr.constructor | hwtHlsGdb/gdbCmdHandlerLlvmIr.py:98-135 | the new handler's tables describe the function, and nothing has started |
| CmdHandler.GdbCmdHandlerLlvmIr.RunInstrOf | hwtHlsGdb/gdbCmdHandlerLlvmIr.py:164-170 | time goes on by one step, and the instruction's outcome writes registers and arguments, whether it raises or not |
| CmdHandler.GdbCmdHandlerLlvmIr.RunCurrentInstr | hwtHlsGdb/gdbCmdHandlerLlvmIr.py:137-186 | one call does to the fields, and returns, what RunInstr says, with the assignments of the `finally` part on every way out |
| CmdHandler.GdbCmdHandlerLlvmIr.HandleStep | hwtHlsGdb/gdbCmdHandlerLlvmIr.py:261-264 | only the cycle limit changes, to 1 |
| CmdHandler.GdbCmdHandlerLlvmIr.HandleContinue | hwtHlsGdb/gdbCmdHandlerLlvmIr.py:266-269 | only the cycle limit changes, to infinity |
| CmdHandler.GdbCmdHandlerLlvmIr.HandleAddBreakpoint | hwtHlsGdb/gdbCmdHandlerLlvmIr.py:318-321 | the address is added |
| CmdHandler.GdbCmdHandlerLlvmIr.HandleRemoveBreakpoint | hwtHlsGdb/gdbCmdHandlerLlvmIr.py:323-329 | the address is removed, or E01 if it is not there |
| CmdHandler.GdbCmdHandlerLlvmIr.HandleRegisterInfo | hwtHlsGdb/gdbCmdHandlerLlvmIr.py:291-295 | the description of the register, or E01 |
| CmdHandler.GdbCmdHandlerLlvmIr.HandleReadRegister | hwtHlsGdb/gdbCmdHandlerLlvmIr.py:215-231 | the `p` reply of the state the handler is in |
| CmdHandler.GdbCmdHandlerLlvmIr.HandleReadRegisters | hwtHlsGdb/gdbCmdHandlerLlvmIr.py:196-213 | the `g` reply of the state the handler is in |
| InstrOrder.RunsNext | hwtHlsGdb/gdbCmdHandlerLlvmIr.py:164-182 | one call runs the next instruction: time goes on by one step in any case; a fault exactly if it raises or nothing comes next; else the next instruction is, without a jump, the one of its block one line further, and behind a jump the one of that block with the least line; a hit exactly if eight times that line has a breakpoint |
| InstrOrder.EightFurther | hwtHlsGdb/gdbCmdHandlerLlvmIr.py:172-178 | without a jump the address goes on by eight in the same block, and there is a fault exactly at the end of the block |
| InstrOrder.RunsFirst | hwtHlsGdb/gdbCmdHandlerLlvmIr.py:154-162 | the first call faults exactly if the first block is empty; else its first instruction has the first line, and with a breakpoint there nothing is run, without one it is run like any other |
| InstrOrder.PlaceLost | hwtHlsGdb/gdbCmdHandlerLlvmIr.py:154-156 | with no next instruction but a block entered, a call faults and changes nothing but the limit |
| InstrOrder.NextIsUnique | hwtHlsGdb/gdbCmdHandlerLlvmIr.py:172-177 | there is at most one instruction that comes next |
| InstrOrder.BareGoesOn | hwtHlsGdb/gdbCmdHandlerLlvmIr.py:164-177 | the program without a debugger goes from state to state by the same rule of lines |
| InstrOrder.BareBegins | hwtHlsGdb/gdbCmdHandlerLlvmIr.py:157-159 | it begins at the first line, in the first block |
| InstrOrder.TimeAndLine | hwtHlsGdb/gdbCmdHandlerLlvmIr.py:164-177 | after n instructions n steps of time have passed, and if none of them jumps the next line is the first line plus n |
| InstrOrder.SessionClock | hwtHlsGdb/gdbCmdHandlerLlvmIr.py:164 | in every session time stands at one step for each instruction run, wherever the debugger has stopped |
| ServerStub.PacketWire | hwtHlsGdb/gdbServerStub.py:111-276 | one packet puts on the wire: an acknowledgement unless they are off, one reply, and after an interrupt the stop packet |
| ServerStub.GDBServerStub.constructor | hwtHlsGdb/gdbServerStub.py:25-29 | a new stub is stopped and acknowledges packets |
| ServerStub.GDBServerStub.Branch | hwtHlsGdb/gdbServerStub.py:117-271 | the branch a packet leads to gives its reply and its changes of the two flags |
| ServerStub.GDBServerStub.HandlePacket | hwtHlsGdb/gdbServerStub.py:111-276 | the new state, what is sent and whether it raises are those of PacketHandled |
| ServerStub.GDBServerStub.OnData | hwtHlsGdb/gdbServerStub.py:82-109 | the loop that shrinks its input ends and handles exactly the packets scanned from it, in order |
| ServerStub.GDBServerStub.RunRound | hwtHlsGdb/gdbServerStub.py:65-76 | one call of runCurrentInstr if running, S05 for a stop, S09 for a fault |
| ServerStub.GDBServerStub.LoopBody | hwtHlsGdb/gdbServerStub.py:59-76 | one pass: the packets first, then at most one instruction |
| ServerStub.GDBServerStub.Start | hwtHlsGdb/gdbServerStub.py:59-76 | the loop over any arrivals is Serve, including what it has sent |
| StubRuns.RunInstrIsBare | hwtHlsGdb/gdbCmdHandlerLlvmIr.py:137-186 | one call is one instruction of the program run without a debugger, or none |
| StubRuns.Transparency | hwtHlsGdb/gdbServerStub.py:59-76 | in every session the interpreter state is that of the program on its own after as many instructions as have run; S09 only where the program cannot go on |
| StubRuns.StopAccounting | hwtHlsGdb/gdbServerStub.py:65-177 | in every session S05 and S09 sent by the loop plus interrupts that found the program running equal the starts that found it stopped, less one while running; the cycle limit stays 0, 1 or infinite |
| StubRuns.NoInstrWhileStopped | hwtHlsGdb/gdbServerStub.py:59-76 | a pass runs at most one instruction, and none if its packets leave the program stopped |
| ContinueStep.RunInstrExactly | hwtHlsGdb/gdbCmdHandlerLlvmIr.py:142-182 | what a call returns is decided by the bare program and the breakpoints alone |
| ContinueStep.ReachableStandsAt | hwtHlsGdb/gdbServerStub.py:59-76 | every state of every session that is not closed meets the assumption of the results on continue and step |
| ContinueStep.ContinueStopsAtFirstHit | hwtHlsGdb/gdbCmdHandlerLlvmIr.py:142-182 | continue runs the least positive number of instructions that leads to a breakpoint or fault, reports one stop and stays stopped |
| ContinueStep.StartOnEntry | hwtHlsGdb/gdbCmdHandlerLlvmIr.py:154-162 | the first start ever, with a breakpoint on the entry, runs nothing and reports one S05 |
| ContinueStep.ContinueStopsIff | hwtHlsGdb/gdbServerStub.py:65-76 | after p passes the program has stopped exactly if one of its next p instructions ends at a breakpoint or faults |
| ContinueStep.StepExactly | hwtHlsGdb/gdbCmdHandlerLlvmIr.py:261-264 | step runs one instruction and reports one S05, in one pass at a breakpoint and in two otherwise; S09 where the program cannot go on |
| ContinueStep.StepsVisit | hwtHlsGdb/gdbCmdHandlerLlvmIr.py:261-264 | m steps visit the m-th next state, breakpoints or not |
| ContinueStep.StepsReachContinue | hwtHlsGdb/gdbCmdHandlerLlvmIr.py:261-269 | stepping to where continue stops leads to the same interpreter state |
| StopWire.RoundWrites | hwtHlsGdb/gdbServerStub.py:65-76 | a pass of the loop writes nothing while stopped or between instructions, `S09` for a fault, `S05` for any other stop |
| StopWire.ContinueReports | hwtHlsGdb/gdbServerStub.py:65-76 | continue writes `OK` and then `S05` at the breakpoint, or `S09` at the fault, once, however many passes follow |
| StopWire.ContinueIsSilent | hwtHlsGdb/gdbServerStub.py:65-76 | until then `OK` is all that is written |
| StopWire.EntryReports | hwtHlsGdb/gdbCmdHandlerLlvmIr.py:154-162 | the first start with a breakpoint on the entry writes `OK` and `S05` |
| StopWire.StepReports | hwtHlsGdb/gdbServerStub.py:65-76 | step writes `OK` and `S05`, or `S09` where the program cannot run an instruction |
| StopWire.InterruptReports | hwtHlsGdb/gdbServerStub.py:126-133 | an interrupt stops the program and writes `OK` and `S02` |
| StopWire.SeenText | hwtHlsGdb/gdbRemoteMessages.py:23-29 | the same as text: `$OK#9a` and `$S05#b8`, `$S02#b5` or `$S09#bc`, behind a `+` where packets are acknowledged |
| StopWire.PlainReplies | hwtHlsGdb/gdbServerStub.py:118-120 | the reason of the halt is always `S05`, and an unknown request gets the empty reply; neither changes anything |
| StopWire.FeaturesReplied | hwtHlsGdb/gdbCmdHandlerLlvmIr.py:271-272 | the features of the stub to the letter |
| StopWire.AcksSwitchedOff | hwtHlsGdb/gdbServerStub.py:199-203 | switching acknowledgements off is itself acknowledged, and changes nothing else |
| StopWire.StopsRead | hwtHlsGdb/gdbRemoteClient.py:79-84 | every stop packet, in small letters or capitals and whatever follows, is known by the client and its signal read back |
| StopWire.SignalsReported | hwtHlsGdb/gdbLlvimIrCmdTarget.py:20-37 | the handler reports exactly the signals 2, 5 and 9, with an eighth of the program counter as the line, and raises on others |
| RemoteClient.GdbRemoteClient.Fetch | hwtHlsGdb/gdbRemoteClient.py:55-64 | an empty buffer is filled with the next delivery, waiting for it or not; at the end of the connection nothing is received, and that is not taken for nothing to read |
| RemoteClient.GdbRemoteClient.ReceivePkt | hwtHlsGdb/gdbRemoteClient.py:49-86 | the method, re-entered by the stop handler, ends and does what Receive says |
| RemoteClient.GdbRemoteClient.HeadPkt | hwtHlsGdb/gdbRemoteClient.py:66-86 | the head of the buffer: an acknowledgement, a reply, a stop handled first, or an exception |
| RemoteClient.GdbRemoteClient.InterruptHandler | hwtHlsGdb/gdbLlvimIrCmdTarget.py:20-37 | the handler reads register 0 and writes signal and line, or raises |
| RemoteClient.GdbRemoteClient.ReadRegister | hwtHlsGdb/gdbRemoteClient.py:116-122 | the request is sent and the next reply read as a number |
| RemoteClient.GdbRemoteClient.PoolInterrupts | hwtHlsGdb/gdbRemoteClient.py:37-47 | what a non-blocking receive returns is pushed back |
| RemoteClient.GdbRemoteClient.SendExpectingOk | hwtHlsGdb/gdbRemoteClient.py:88-114 | the request is sent and succeeds exactly if `OK` is received |
| RemoteClient.GdbRemoteClient.Exchange | hwtHlsGdb/gdbRemoteClient.py:142-144 | a request while packets are acknowledged: an acknowledgement, then the reply |
| RemoteClient.GdbRemoteClient.ReadFeatures | hwtHlsGdb/gdbRemoteClient.py:145-154 | the loop records all features, or raises exactly if one is not announced with `+` |
| RemoteClient.FeaturesOkIff | hwtHlsGdb/gdbRemoteClient.py:145-154 | a list of features is accepted exactly if each is a key and a `+` at its end |
| RemoteClient.GdbRemoteClient.Connect | hwtHlsGdb/gdbRemoteClient.py:142-167 | the three exchanges in order, each with its expected reply |
| RemoteClient.DriveNested | hwtHlsGdb/gdbRemoteClient.py:79-84 | handlers waiting inside a receive call and outside it do not mix |
| RemoteClient.ReceiveIsDrive | hwtHlsGdb/gdbRemoteClient.py:49-86 | however deliveries are cut at item boundaries, a blocking receive does with the text what a stack of waiting handlers does with the items |
| RemoteClient.PollIsReceive | hwtHlsGdb/gdbRemoteClient.py:49-86 | a receive call that does not wait does what the waiting call does, or returns nothing with the rest of the waiting call still to do |
| RemoteClient.PollIsDrive | hwtHlsGdb/gdbRemoteClient.py:44-86 | a receive call that does not wait does with the text what the handlers do with the items; if it returns nothing, the handlers it has started have all finished |
| RemoteClient.PollMakesNoDifference | hwtHlsGdb/gdbRemoteClient.py:37-54 | a packet that a poll has met and pushed back is given to the next call, as if there had been no poll |
| RemoteClient.CallTakesItsReplyIff | hwtHlsGdb/gdbRemoteClient.py:79-84 | a call returns the first reply of the stream exactly if no stop packet lies ahead of it |
| RemoteClient.CrossedStopBreaksCall | hwtHlsGdb/gdbRemoteClient.py:79-122 | with a stop packet ahead of an `OK`, the handler takes the `OK` for a register and raises |
| ServerAnswers.PassIsIteration | hwtHlsGdb/gdbServerStub.py:59-76 | a pass of the loop on text of whole items is a pass on the items |
| ServerAnswers.AnswerIsNoStop | hwtHlsGdb/gdbRemoteClient.py:79-84 | no reply to a request of the client looks like a stop packet |
| ServerAnswers.CommandAnswered | hwtHlsGdb/gdbServerStub.py:111-276 | each request of the client is answered by exactly one reply, or raises |
| ServerAnswers.PassAnswered | hwtHlsGdb/gdbServerStub.py:59-76 | a pass answers the requests it takes up in order, and a stop packet at its end means the program stands still |
| SessionCalls.TakesAreDrive | hwtHlsGdb/gdbRemoteClient.py:49-86 | the moves by which the client of a run takes items leave, send and report what its receive call does on the same items, and end in the same way |
| SessionCalls.PollIsMoves | hwtHlsGdb/gdbRemoteClient.py:44-86 | a poll leaves, sends and reports what the moves of a run that start it, take items and end it do, and an item it returns is the one the moves push back |
| SessionCalls.ConnectedOn | hwtHlsGdb/gdbRemoteClient.py:142-167 | on three acknowledged replies, however cut at item boundaries, connecting succeeds exactly if they are a list of `+` features, the empty reply and `OK`, and sends what the moves of a run send |
| SessionCalls.ConnectMoves | hwtHlsGdb/gdbRemoteClient.py:142-167 | the moves of a run connect on exactly the same replies, send the same, leave what follows, and otherwise fail |
| SessionCalls.CallEndsAlike | hwtHlsGdb/gdbRemoteClient.py:88-122 | the moves of a call succeed exactly if the client's code, on the same items, is given a number for a register and `OK` for anything else |
| SessionRuns.Conservation | hwtHlsGdb/gdbRemoteClient.py:33-167 | in every run: once connected no acknowledgement is on its way; every request is under way, answered by a reply on its way or by one that was taken, first in first out; the pushed-back slot stays empty between moves |
| SessionRuns.ConnectsInPeace | hwtHlsGdb/gdbRemoteClient.py:142-167 | while the client is connecting the program stands still and no stop packet is on its way |
| SessionRuns.RepliesMatched | hwtHlsGdb/gdbRemoteClient.py:49-122 | replies go to the calls that asked for them as long as no call has met a stop packet, and the first call to meet one makes the next reply go to the wrong one |
| SessionRuns.CallGetsOwnAnswer | hwtHlsGdb/gdbRemoteClient.py:88-122 | without such a stop packet, a call is given the answer to its own request in the state in which the request was taken up |
| SessionRuns.ReportedLine | hwtHlsGdb/gdbLlvimIrCmdTarget.py:20-24 | the line a stop is reported with is the line of the next instruction, read while the program stands still |
| SessionProgress.CanConnect | hwtHlsGdb/gdbRemoteClient.py:142-167 | from every state in which the client is connecting, there is a continuation in which it is connected |
| SessionQuiet.QuietCallGetsItsReply | hwtHlsGdb/gdbRemoteClient.py:79-122 | a call that starts with the program stopped and nothing to read is given its own reply in every continuation: either it still waits, with no stop packet ahead, or it has taken the stub's answer to its own request |
| SessionBreakpoints.BreakpointsFollowRequests | hwtHlsGdb/gdbCmdHandlerLlvmIr.py:318-329 | in every run the stub's addresses are what the answered requests have set and removed in the order sent, and a removal is answered by E01 exactly if the requests before it left the address unset |
| MiLines.TeeedFile.Readline | hwtHlsGdb/gdbMiMessages.py:62-79 | one call does to the buffer, the input and the second file what LineRead says |
| MiLines.AvailableLine | hwtHlsGdb/gdbMiMessages.py:59-70 | a call reads from the main file exactly if no complete line is buffered |
| MiLines.NothingIsLost | hwtHlsGdb/gdbMiMessages.py:62-79 | results, the joined buffer and what is still to be read are together all the text; a result is nothing or one line with one newline at its end |
| MiLines.ReturnsTheLines | hwtHlsGdb/gdbMiMessages.py:62-79 | the results are the first complete lines of the text, and after enough calls all of them |
| MiLines.CutsDoNotMatter | hwtHlsGdb/gdbMiMessages.py:62-79 | the same text cut differently gives the same lines in the same order |
| MiStrings.GdbMiEscapeStr | hwtHlsGdb/gdbMiMessages.py:146-164 | the loop over the characters is EscapeStr, with its exception |
| MiStrings.EscapeStandsFor | hwtHlsGdb/gdbMiMessages.py:110-143 | what stands for one character is read as that character whatever follows, and holds no end of a string |
| MiStrings.EscapeRoundTrip | hwtHlsGdb/gdbMiMessages.py:110-164 | escaping raises exactly on a character above 0xFF; otherwise the text and the length are read back whatever follows, so the first unescaped quote is the last character |
| MiStrings.EscapedIsPrintable | hwtHlsGdb/gdbMiMessages.py:110-164 | seven-bit output is printable ASCII; otherwise also 0xA0 to 0xFF |
| MiStrings.LettersWritten | hwtHlsGdb/gdbMiMessages.py:122-135 | the seven control characters with a letter of their own |
| MiStrings.PlainIff | hwtHlsGdb/gdbMiMessages.py:114-143 | a character is written as it is exactly if it is printable, beyond ASCII only where eight bits are allowed, and in a string neither quote nor backslash, which get a backslash |
| MiRecords.GdbCmdFormatArgs | hwtHlsGdb/gdbMiMessages.py:244-248 | the loop yields one text for each argument, with its exception |
| MiRecords.ListRoundTrip | hwtHlsGdb/gdbMiMessages.py:244-248 | a bracketed list is read back with its strings and its length whatever follows; writing raises exactly on a character above 0xFF |
| MiRecords.RecordRoundTrip | hwtHlsGdb/gdbMiMessages.py:244-254 | a result record of named lists is read back with its token, names and lists |
| MiRecords.RecordIs | hwtHlsGdb/gdbMiMessages.py:244-254 | any record, with lists and with text: token, `^done`, and behind a comma each name, `=`, and its text as it is or the list that is read back; it raises exactly on a list with a character above 0xFF |
| MiRecords.ListIsAscii | hwtHlsGdb/gdbMiMessages.py:146-248 | a written list is printable ASCII throughout, whatever its strings |
| MiCommands.ParseGdbCmd | hwtHlsGdb/gdbMiMessages.py:167-192 | the loop over the matches gives what ParsedCmd says |
| MiCommands.CommandLineRoundTrip | hwtHlsGdb/gdbMiMessages.py:167-192 | `token-name arg ... arg` is parsed to exactly that token, name and arguments |
| MiCommands.NoTokensIff | hwtHlsGdb/gdbMiMessages.py:179-180 | nothing is found exactly if there is no identifier character and no finished quoted string |
| MiCommands.NotACommandIff | hwtHlsGdb/gdbMiMessages.py:167-192 | exactly when a text is no command, and exactly when parsing raises |
| MiCommands.TokenIsDigitsIff | hwtHlsGdb/gdbMiMessages.py:168-175 | the digits a line begins with are its token exactly if the line goes on behind them; otherwise the last digit is missing |
| MiCommands.NumberLine | hwtHlsGdb/gdbMiMessages.py:168-192 | any line of digits is taken for its last digit as the command and, as the token, a tenth of the number, or none for a single digit |
| MiCommands.IdentifierCharacters | hwtHlsGdb/gdbMiMessages.py:179 | the characters of an identifier: letters, digits and `/_-*.:`, so no comma, quote or space |
| MiCommands.GroupsAre | hwtHlsGdb/gdbMiMessages.py:168 | the three groups make up the line, the last is not empty, and digits and dash are left to it only where it would be |
| MiCommands.ParametersAreNone | hwtHlsGdb/gdbMiMessages.py:188-190 | names hold no comma, so the parameters split off the name are never any |
| MiCommands.StringIsNoName | hwtHlsGdb/gdbMiMessages.py:179-186 | a line that begins with a string is a command without a name, and the string is lost |
| FilterArgs.Filter | hwtHlsGdb/gdbMiMessages.py:317-336 | the nested loops skip the longest fitting pattern at each word and keep the other words; an empty pattern raises |
| FilterArgs.LongestIs | hwtHlsGdb/gdbMiMessages.py:326-328 | the number skipped is the length of a fitting pattern, and no fitting pattern is longer |
| FilterArgs.FilteredIsSubsequence | hwtHlsGdb/gdbMiMessages.py:317-336 | the result is a subsequence of the input |
| FilterArgs.FilteredTwice | hwtHlsGdb/gdbMiMessages.py:317-336 | filtering again changes nothing |
| FilterArgs.FilteredIsLeft | hwtHlsGdb/gdbMiMessages.py:317-336 | what is left is decided by the numbers of words skipped at the words looked at |
| FilterArgs.LongestIsWholeIff | hwtHlsGdb/gdbMiMessages.py:326-328 | at one word a whole pattern or nothing is skipped exactly if no pattern recognised by its first word alone is longer than every pattern that occurs |
| FilterArgs.SkipsWholeIff | hwtHlsGdb/gdbMiMessages.py:317-336 | exactly the patterns that occur as a whole are skipped if and only if that holds at every word looked at; what is left is then what dropping whole patterns leaves |
| FilterArgs.LeavesTheSameIff | hwtHlsGdb/gdbMiMessages.py:317-336 | for patterns of an option and a value, as all callers give them, what is left is what dropping whole patterns leaves if and only if that holds |
| FilterArgs.OtherValueIsDropped | hwtHlsGdb/gdbMiMessages.py:326-328 | `--thread 2` is dropped for the pattern `--thread 1` |
| FilterArgs.OnlyHeadsCount | hwtHlsGdb/gdbMiMessages.py:326-328 | patterns with the same first words and lengths filter alike |
| BreakpointMirror.GdbInterpretState.BreakInsertAt | hwtHlsGdb/gdbLlvimIrCmdBreak.py:24-31 | the line is recorded under the next number exactly if the request has succeeded |
| BreakpointMirror.GdbInterpretState.BreakDeleteOf | hwtHlsGdb/gdbLlvimIrCmdBreak.py:33-40 | the number is taken out before the request, whatever its reply; an unknown number sends nothing |
| BreakpointMirror.AddressesAreLive | hwtHlsGdb/gdbLlvimIrCmdBreak.py:24-40 | in every run the stub's addresses are eight times lines of the table |
| BreakpointMirror.NumbersAreNew | hwtHlsGdb/gdbLlvimIrCmdBreak.py:27-28 | a number is given only once |
| BreakpointMirror.SetIff | hwtHlsGdb/gdbLlvimIrCmdBreak.py:24-40 | a line's address is set exactly if the last operation on the line was an insert |
| BreakpointMirror.DeleteRaisesIff | hwtHlsGdb/gdbLlvimIrCmdBreak.py:33-40 | a delete from the table is answered by an error exactly if the last operation on its line was a delete |
| BreakpointMirror.StaysMirrored | hwtHlsGdb/gdbLlvimIrCmdBreak.py:24-40 | from equal tables an operation leads to unequal ones exactly if it deletes a breakpoint whose line another shares |
| BreakpointMirror.MirroredIff | hwtHlsGdb/gdbLlvimIrCmdBreak.py:24-40 | the tables are equal all through a run exactly if the run never does that |
| BreakpointMirror.DistinctLinesAgree | hwtHlsGdb/gdbLlvimIrCmdBreak.py:24-40 | with breakpoints on distinct lines the tables are equal and no delete is answered by an error |
| BreakpointMirror.TwoOnOneLine | hwtHlsGdb/gdbLlvimIrCmdBreak.py:24-40 | two breakpoints on one line: after deleting one, deleting the other raises |
| BreakpointMirror.SessionMirrors | hwtHlsGdb/gdbLlvimIrCmdBreak.py:24-40 | the same for a run of client and stub with anything in between: the addresses are those of the table's lines |

## Left out

- Sockets, `select`, terminals and files: deliveries are arbitrary sequences of texts; ASCII text stands for its bytes, so decoding changes nothing.
- What LLVM instructions do, `HBits` values beyond value, mask and width, and VCD logging: one instruction is an arbitrary function that may raise.
- Python's `%"..."` quoting of operand names (`ast.literal_eval`): an instruction comes with its unquoted name.
- RegisterSessions.LayoutAgreesInSessions: takes from the instructions that they keep registers in their types, because their meaning is a parameter, and from the source that its last address fits the eight bytes of the program counter; so do RegisterIsReported (the first) and RepliesAgree.
- SessionRuns.Conservation: the streams between client and stub carry items, not text, and each pass may take any number of whole items; PassIsIteration, ReceiveIsDrive, TakesAreDrive and ConnectedOn connect the two, and CutKeepsItemsIff says what a cut elsewhere does.
- BreakpointMirror.MirroredIff: the stub answers each operation at once; SessionMirrors carries the result over to runs of client and stub.
- SessionProgress.CanConnect: says that a continuation exists, not that every fair schedule takes it.
- The client after S09: the stub leaves its loop and closes, so the handler's read has no peer; in a joint run the stub then takes no more passes.
- The `G`, `m` and `M` requests: their handlers raise NotImplementedError, so they end the session like any other exception.
- Unicode digits and case, which `\d` and `int` accept: digits are `0` to `9`.
- The arguments of break-insert (`-t -f main`, `-f file:line`), lines below 0, and a missing module or file name, which raise behind the request: operations take a line.
- The MI `Stack`, `Thread`, `Data`, `Var` and `Exec` commands and the main loop around them: fixed replies and easy branches.
- `write` and `flush` of the line buffer, and the formatters of frames and breakpoints: plain text built from their arguments.
