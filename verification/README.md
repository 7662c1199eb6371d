# Verified models of the ISODE compatibility, FTAM and directory-reading code

Dafny models of nine components of ISODE, each following the C code branch by
branch, with proofs of what the code is for. `dafny verify dfyconfig.toml` checks
everything.

Most components come in three layers: functions on values that say what the code
computes, theorems about those functions, and the code in its own form (classes,
arrays, loops) proved to compute them. Some of the theorems say what is guaranteed
over runs or round trips; others say exactly what is accepted and what comes of it, as
tables or by effects, without the functions they are about. Where a property fails, the exact condition
under which it holds is proved, and the failing case is a lemma of its own.

- **Datagram demultiplexer** (`Ring`, `RingTable`, `Datagrams`,
  `DatagramTheorems`, `DatagramArrivals`, `DatagramCalls`, `DatagramFates`,
  `DatagramTable`), compiled for 4.4BSD or for other systems. Slots over one
  socket form a forest of depth one in every reachable state; a select receives
  from every ready descriptor in its turn, and datagrams are routed to the right
  member of a group, kept in order, and none is lost or duplicated. The methods
  work on an array of slots and on rings of linked buffers. The kernel is a
  parameter: what each poll and each receive answers.
- **Network-address codec** (`Nsap`, `NsapTheorems`, `NsapReading`, `NsapHosts`,
  `NsapEdges`, `NsapForms`, `NsapLoops`, `Dse`, `DseForms`). For each address form, exactly
  which addresses survive encoding and decoding, for every table of communities,
  and the lifting to presentation addresses in directory form; for octets of any
  origin, exactly which address is read. Name resolution is a parameter.
- **Presentation-address strings and macros** (`Paddr`, `PaddrTheorems`,
  `PaddrSelectors`, `PaddrAddresses`, `PaddrLoops`, `Macros`). Parsing undoes
  compact printing exactly when every address starts with the macro value of a
  community, and reads selectors of any form as what they stand for. The hash
  table answers like the list of definitions.
- **FTAM** (`FtamTypes`, `FtamAttributes`, `FtamRefusals`, `FtamCodec`,
  `FtamGroups`, `FtamGroupTheorems`, `FtamReading`, `FtamReplies`, `FtamTables`,
  `FtamLosses`, `FtamRegime`, `FtamRuns`, `FtamCalls`, `FtamGroupCalls`,
  `FtamArrivals`, `FtamNet`, `FtamHistory`, `FtamBrackets`, `FtamParts`,
  `FtamBlock`, `FtamNegotiation`, `FtamTerms`). Both sides of an association, with
  PDUs on their way in both directions: grouped requests and replies with the file
  attributes in them, as they are encoded and decoded, the data regime with its
  cancel procedure, and negotiation.
- **Directory streams and getcwd** (`Directory`, `DirTheorems`, `DirEntries`,
  `DirStream`, `GetCwd`, `GetCwdFailures`).
- **Signal masks** (`Signals`, `SignalTheorems`, `SignalArrivals`, `SignalTable`),
  **tokenizer** (`Tokens`, `TokenEscapes`, `TokenWritings`, `TokenBuffer`), **X.25 numbers**
  (`X25Addr`, `X25Calls`). `Wrappers` holds the optional value.

## What the code does not promise

These are results about the code as it is.

- Two FTAM cancels that cross always end the association: each side answers the
  other's cancel, goes idle, and then meets the answer to its own, which it does
  not expect (`FtamNet.CrossedCancelsAreFatal`). Without a crossing no run of
  proper calls ends that way.
- A reader of bit strings takes an empty one for an error, and no check of a sender
  looks for one. An accepted group with an empty requested access, attribute-name
  list or open mode, with empty permitted actions, or with an access-control element
  without actions breaks the association at the responder; so does a create whose
  list of filenames is empty (`FtamReading.ResponderReadsTheGroup`,
  `FtamLosses.EmptyAccessIsUnreadable`, `FtamLosses.EmptyCreateIsUnreadable`). An
  answer with such attributes breaks it at the initiator (`FtamReplies.ReplyTaken`,
  `FtamLosses.EmptyAnswerIsUnreadable`). In step, a call is expected by the other side
  exactly when none of this happens, and a reply is complete and consistent
  (`FtamRuns.CallIsExpected`).
- A mark that an attribute has no value is sent only with the attribute, although the
  check of a change asks for marks and attributes to be apart: no mark of an accepted
  change ever arrives (`FtamAttributes.MasksArrive`, `FtamLosses.MarkIsLost`). A
  select without a name is read as one (`FtamLosses.MissingNameIsLost`).
- The private-use attribute passes the checks of a create and of a change, and is then
  refused by the encoder (`FtamLosses.PrivateUseIsRefused`).
- A bulk-begin reply may leave the open out; if the state given for it is a
  failure the two sides then disagree on whether the data regime was entered
  (`FtamReplies.RepliesAgreeExactly`, `FtamLosses.OpenLeftOutDisagrees`).
- A responder lets a delete request through anywhere in a group
  (`FtamReading.StrayDeleteIsTaken`, `FtamReading.StrayDeleteIsIllegal`).
- A responder may choose a service class without all its mandatory functional
  units; the initiator adds the missing ones on its own
  (`FtamNegotiation.ViewsAgreeExactly`, `FtamNegotiation.NegotiatedApart`).
- Concurrency locks in access-control elements are not read back, and when some
  passwords are given the missing ones come back empty
  (`FtamAttributes.AttributesSurviveExactly`,
  `FtamAttributes.LocksAndPasswordsAreLost`).
- A macro that was redefined still abbreviates values of its old definition, which
  then expand to something else (`Macros.RedefinedExpandsToAnother`); and the
  abbreviation by a macro with an equals sign in its name is split at the wrong one
  (`Macros.ExpandsBackExactly`, `Macros.EqualsSignInNameIsLost`).
- `norm2na` does not check the length of a DTE, nor that an 8-octet address has a
  digit that is not 0: it then writes or reads beyond its buffers. When, exactly, is
  `NsapReading.Overruns` (`NsapReading.ReadingAlwaysAnswers`,
  `NsapReading.LongDteOverruns`, `NsapReading.ZerosOverrun`).
- On 4.4BSD an internet address counts six octets when a datagram is received from
  it, eight when a slot is joined to it and none when a root is hacked to it, and
  the lengths are compared: no connected slot ever gets an internet datagram but the
  one it was accepted with (`DatagramFates.ConnectedEndpointsAreDeaf`,
  `DatagramFates.OwnPeerMatchesExactly`, `DatagramFates.HackedRootHearsExactly`).
- X.25 numbers survive `gen2if` and `if2gen` only under the condition
  `X25Addr.Survives` (`X25Addr.RoundTripsExactly`, `X25Addr.NumbersLost`).
- What `telldir` gives between buffers need not be the offset of any entry
  (`DirTheorems.TelldirAtBoundary`, `DirTheorems.ToldPositionIsRefused`).

## Model

| member | source | states |
|---|---|---|
| `Ring.Insque` | compat/general.c:58-67 | the element stands in the ring right after its predecessor; every other link is unchanged |
| `Ring.Remque` | compat/general.c:70-76 | the neighbours of the element are linked to each other and its own links stay; in a ring it leaves its place |
| `Ring.HeadAlone` | compat/dgram.c:371 | a head linked to itself is a ring of one: the emptiness test is right |
| `Ring.Queue.Append` | compat/dgram.c:586 | insertion before the head refines appending to a sequence |
| `Ring.Queue.Take` | compat/dgram.c:371-387 | removal after the head refines taking the first of a sequence, or nothing |
| `Ring.Queue.FreeAll` | h/manifest.h:288-298 | every element leaves once, oldest first |
| `RingTable.Rings.Put` | compat/dgram.c:586 | a buffer is linked in last in one ring; no other ring changes |
| `RingTable.Rings.Take` | compat/dgram.c:371-387 | the first buffer of one ring is unlinked, and holds the oldest datagram |
| `RingTable.Rings.Free` | compat/dgram.c:467-469 | one ring is emptied |
| `RingTable.Rings.Empty` | compat/dgram.c:371 | a head that is linked to itself says that nothing is queued |
| `DatagramTheorems.RouteIsExact` | compat/dgram.c:547-584 | a datagram goes to a slot of the receiver's group with its source as peer, else to an unconnected root; it goes nowhere exactly when there is neither |
| `DatagramTheorems.OrphansAreIsolated` | compat/dgram.c:471-473 | when a parent closes its children become roots of their own, otherwise unchanged, and hear only their peers |
| `DatagramTheorems.StepKeepsInv` | compat/dgram.c:291-477 | every operation keeps the depth-one forest and the peers of queued datagrams |
| `DatagramTheorems.ReachableStatesAreForests` | compat/dgram.c:172-173 | in every reachable state parents are live roots and children queue only their peer's datagrams |
| `DatagramTheorems.ChildReadsOnlyItsPeer` | compat/dgram.c:357-391 | over every run a connected slot delivers only datagrams of its peer |
| `DatagramTheorems.StepExplained` | compat/dgram.c:386-593 | every change to every queue is one of the logged events |
| `DatagramTheorems.QueuesAreFifo` | compat/dgram.c:371-391 | per slot, what was delivered and what is queued is what was enqueued, in order |
| `DatagramTheorems.DatagramsAreConserved` | compat/dgram.c:515-593 | over every run received = read + queued + discarded + freed |
| `DatagramTheorems.ScanLogsEveryArrival` | compat/dgram.c:512-593 | the scan enqueues or discards each received datagram exactly once |
| `DatagramTheorems.JoinAcceptsTheOldest` | compat/dgram.c:303-346 | a child is connected to the source of the datagram that is the root's oldest once the join has polled, and which moves to it |
| `DatagramTheorems.SelectReportsQueues` | compat/dgram.c:595-616 | after select a requested slot is readable exactly when its queue is not empty, and the count is the size of the union |
| `DatagramTheorems.SelectNeverBlocksOnQueuedData` | compat/dgram.c:495-519 | with data queued on a requested slot the whole call never waits: timeout and waiting polls do not matter |
| `DatagramArrivals.SelectReceivesInOrder` | compat/dgram.c:512-593 | a select whose first poll succeeds receives from the ready live descriptors below nfds in ascending order, polling again after each datagram it queues, until the count is used up, a poll finds none or none is left; each goes by the routing rule, and the call fails exactly when one of them has nothing |
| `DatagramArrivals.SelectFailsWithPoll` | compat/dgram.c:508-510 | when the first poll fails nothing is received and the call fails |
| `DatagramArrivals.LeastReadyIsReceived` | compat/dgram.c:515-545 | the least ready descriptor is received from: its datagram is the first to be queued or discarded |
| `DatagramArrivals.AwaitedIsQueued` | compat/dgram.c:508-600 | a datagram for an unconnected root that nobody else claims is queued on it, and the root is reported readable |
| `DatagramArrivals.AwaitedIsRead` | compat/dgram.c:357-391 | a read then gets that datagram |
| `DatagramArrivals.AwaitedIsJoined` | compat/dgram.c:303-351 | and a join a child that holds it and is connected to its sender |
| `DatagramCalls.HearsExactly` | compat/dgram.c:547-568 | which octets and lengths count when a source is compared with a peer, on both kinds of system |
| `DatagramCalls.FirstOfTheGroup` | compat/dgram.c:569-577 | a datagram not from the receiver's own peer goes to the first slot of its group that has that peer |
| `DatagramCalls.StartMakesARoot` | compat/dgram.c:168-173 | the new slot is its own parent, and nothing else changes |
| `DatagramCalls.HackGivesAPeer` | compat/dgram.c:397-423 | a root gets the given peer or none, and a length of 0 with a peer on 4.4BSD; anything but a root is refused |
| `DatagramCalls.JoinGivesAPeer` | compat/dgram.c:331-346 | likewise a joined root, with the length its address has |
| `DatagramCalls.JoinFailsOrOpens` | compat/dgram.c:291-351 | the errors of a join of a new slot in their order, and otherwise its effect on both slots |
| `DatagramCalls.CloseFrees` | compat/dgram.c:454-476 | the closed slot is blank, its children are their own parents, its datagrams are freed |
| `DatagramCalls.ReadTakesTheOldest` | compat/dgram.c:371-391 | with something queued a read takes the oldest and asks the kernel nothing |
| `DatagramCalls.ReadSelectsFirst` | compat/dgram.c:376-383 | with nothing queued it selects, gives up when that fails, and then goes on as from the start |
| `DatagramCalls.ReadFails` | compat/dgram.c:362-369 | a slot that is not there cannot be read from |
| `DatagramCalls.SelectForOthers` | compat/dgram.c:508-510 | with no descriptors to read the kernel's answer is passed on |
| `DatagramCalls.SelectPassesOn` | compat/dgram.c:595-616 | so are the sets for writing and of exceptions, and what else is in the set for reading |
| `DatagramFates.StepIsJustified` | compat/dgram.c:547-584 | whatever an operation queues or discards, the slots it finds are the reason |
| `DatagramFates.RunIsJustified` | compat/dgram.c:515-593 | over any run a datagram is discarded only when nobody in its receiver's group has that peer and the root is connected, and queued only where the routing rule sends it |
| `DatagramFates.OwnPeerMatchesExactly` | compat/dgram.c:335-346 | a slot hears from the address it was joined to exactly on systems other than 4.4BSD, or when that is no internet address and has a length |
| `DatagramFates.ConnectedEndpointsAreDeaf` | compat/dgram.c:547-575 | on 4.4BSD with internet addresses no run ever queues a received datagram on a connected slot |
| `DatagramFates.HackedRootHearsExactly` | compat/dgram.c:411-417 | on 4.4BSD a hacked root hears exactly from sources without a length |
| `DatagramTable.Demux.StartServer` | compat/dgram.c:101-173 | the method on the array of slots and their rings does what the specification function does |
| `DatagramTable.Demux.Hack` | compat/dgram.c:397-423 | likewise |
| `DatagramTable.Demux.JoinSame` | compat/dgram.c:331-346 | likewise |
| `DatagramTable.Demux.MoveOldest` | compat/dgram.c:329-330 | the first buffer of the root's ring moves into the child's |
| `DatagramTable.Demux.JoinNew` | compat/dgram.c:303-351 | likewise, moving the buffer from ring to ring |
| `DatagramTable.Demux.SetPeer` | compat/dgram.c:334-346 | the peer and, on 4.4BSD, its length |
| `DatagramTable.Demux.Put` | compat/dgram.c:586 | a buffer with the datagram goes last in one ring, nothing else changes |
| `DatagramTable.Demux.Read` | compat/dgram.c:357-391 | likewise |
| `DatagramTable.Demux.Await` | compat/dgram.c:376-383 | the wait loop of a blocking read |
| `DatagramTable.Demux.TakeOldest` | compat/dgram.c:386-387 | the first buffer of one ring leaves with the oldest datagram, nothing else changes |
| `DatagramTable.Demux.FreeQueue` | h/manifest.h:288-298 | one ring is emptied |
| `DatagramTable.Demux.Close` | compat/dgram.c:454-476 | the slot dies, its children are orphaned, its queue is freed |
| `DatagramTable.Demux.FindTarget` | compat/dgram.c:547-584 | the nested search finds the slot of the routing rule |
| `DatagramTable.Demux.Receive` | compat/dgram.c:512-593 | the rescanning loop refines the recursive scan |
| `DatagramTable.Demux.MarkReadable` | compat/dgram.c:595-600 | exactly the requested slots with data are marked |
| `DatagramTable.Demux.AnyWaiting` | compat/dgram.c:495-506 | true exactly when a requested slot has data queued |
| `DatagramTable.Demux.Select` | compat/dgram.c:482-616 | the whole select refines the specification |
| `DatagramTable.Demux.PerformAll` | compat/dgram.c:95-616 | over any legal run the array, the rings and what happened to datagrams are those of the run on values |
| `DatagramTable.CountBelow` | compat/dgram.c:602-614 | the returned count is the number of descriptors below nfds in any of the sets |
| `NsapTheorems.PackedDigitsReadBack` | compat/na2norm.c:140-146 | semi-octet packing is undone by unpacking, for even and odd numbers of digits |
| `NsapTheorems.BlankPadsLikeZero` | compat/na2norm.c:108 | padding a DTE with blanks or zeros gives the same octets |
| `NsapTheorems.TcpRoundTripsExactly` | compat/na2norm.c:74-92 | a TCP address survives the codec exactly when its community is a TCP one and owns the encoding, the host is its own dotted quad and the transport set is one that is carried |
| `NsapTheorems.X121RoundTripsExactly` | compat/na2norm.c:104-112 | an international DTE survives exactly when it has 1 to 14 digits |
| `NsapTheorems.X25RoundTripsExactly` | compat/na2norm.c:112-147 | the other X.25 addresses survive exactly with a numeric DTE, no PID or no CUDF, at most 9 octets, and an encoding their community owns |
| `NsapForms.TcpNormalised` | compat/na2norm.c:65-92 | the octets of any TCP address, whether they read back or not: the prefix of the first community of its subnet, and host, port and transport set in digits; or none when the host is not known |
| `NsapForms.X25Normalised` | compat/na2norm.c:93-147 | those of any X.25 address: indicator, count, data and number behind the prefix, or the international form |
| `NsapForms.NothingNormalised` | compat/na2norm.c:57-67 | raw octets are themselves; an address of an unknown subnet or kind has none |
| `NsapForms.PackPacks` | compat/na2norm.c:140-146 | half an octet for each character, the first in the higher half, and a filler behind an odd one |
| `NsapReading.ReadingAlwaysAnswers` | compat/norm2na.c:83-262 | octets that fit are kept raw exactly when they are not those of a structured address, and the C code leaves its buffers exactly when the DTE read is longer than its field or all X.121 digits are zeros |
| `NsapReading.StructuredExactly` | compat/norm2na.c:46-240 | an address is read exactly when it is what the digits spell in the syntax of the longest-prefix community, and its DTE fits |
| `NsapReading.DigitsReadExactly` | compat/norm2na.c:131-240 | the readers give an address exactly when the digits spell a run that means it, the runs written with the encoder's fields |
| `NsapReading.MalformedIsRefused` | compat/norm2na.c:131-240 | the readers refuse exactly a bad indicator, a missing or overlong count, a PID over 4, an octet above 255, a TCP run that ends inside a field, and any other syntax |
| `NsapReading.DigitsUnlessBad` | compat/norm2na.c:106-121 | the octets are digits exactly when none has a bad semi-octet |
| `NsapReading.RawRoundTripsExactly` | compat/na2norm.c:57-60 | a raw address survives exactly when its octets look like no structured one and it names the community they are given |
| `NsapReading.RoundTripsExactly` | compat/na2norm.c:46-150 | for every form of address, what it takes to survive |
| `NsapReading.LongDteOverruns` | compat/norm2na.c:194-195 | 22 octets of good digits whose DTE is longer than its field |
| `NsapReading.ZerosOverrun` | compat/norm2na.c:71-72 | the 8-octet form of nothing but zeros |
| `NsapReading.MalformedDigitsStayRaw` | compat/norm2na.c:106-121 | one bad semi-octet sends the octets to the raw form |
| `NsapHosts.DecimalIsNumeral` | compat/norm2na.c:207-210 | a number is written with its digits and no superfluous 0 |
| `NsapHosts.DottedPieces` | compat/norm2na.c:207-210 | the host has four pieces between dots, which are the numerals of the four octets in order |
| `NsapHosts.HostIsInOrder` | compat/norm2na.c:197-240 | any TCP address that is read has the host, port and transport set that the digits behind its community's prefix give, in this order |
| `NsapEdges.FirstLongest` | compat/norm2na.c:83-88 | the community is the first of those whose prefix is the longest that heads the octets |
| `NsapEdges.NoneHeads` | compat/norm2na.c:83-88 | and there is none only if no prefix does |
| `NsapEdges.DigitsOfOctets` | compat/norm2na.c:101-121 | the digits of an octet, the higher half first, one only with a filler |
| `NsapEdges.WrittenExactly` | compat/norm2na.c:101-121 | how many digits are written before a bad octet stops the unpacking |
| `NsapEdges.InternationalExactly` | compat/norm2na.c:49-78 | the eight octets of an international X.25 number: kept raw, beyond the buffer, or read as the number behind the zeros |
| `NsapEdges.ByCommunity` | compat/norm2na.c:83-262 | octets of any other form and length: kept raw, turned down, beyond the buffers, or read as their digits say, in exactly these cases |
| `NsapEdges.PidIsShort` | compat/norm2na.c:159-164 | a PID of more than four octets is refused |
| `NsapEdges.PortWidth` | compat/na2norm.c:84-92 | no digits without a port, five for a port, and five more for a transport set other than 0 and the usual one |
| `NsapLoops.PackDigits` | compat/na2norm.c:140-146 | the packing loop computes the packing |
| `NsapLoops.UnpackDigits` | compat/norm2na.c:101-121 | the unpacking loop computes the unpacking, malformed nibbles included |
| `NsapLoops.FindBest` | compat/norm2na.c:83-88 | the scan finds the first community of longest prefix |
| `NsapLoops.ReadTriples` | compat/norm2na.c:176-186 | three digits to an octet, none above 255 |
| `NsapLoops.WriteTriples` | compat/na2norm.c:119-125 | an octet to three digits |
| `NsapLoops.DropZeros` | compat/norm2na.c:71-72 | leading zeros are skipped |
| `NsapLoops.FindCommunity` | compat/na2norm.c:65-67 | the community of the subnet |
| `NsapLoops.Normalise` | compat/na2norm.c:46-150 | the code refines the encoding function |
| `NsapLoops.ParseX25` | compat/norm2na.c:131-196 | the code refines the X.25 reader |
| `NsapLoops.ReadNormal` | compat/norm2na.c:46-264 | the code refines the reader |
| `Dse.PsapRoundTripsExactly` | acsap/dse-c.c:66-169 | a presentation address survives the directory form exactly when its selectors fit and each network address survives the codec |
| `Dse.PsapCarriedExactly` | acsap/dse-c.c:66-169 | the same in terms of the fields of the addresses |
| `DseForms.BuiltExactly` | acsap/dse-c.c:66-113 | the directory form is built exactly when every network address can be normalised; it has their octets in order and the selectors that are not empty |
| `DseForms.ReadExactly` | acsap/dse-c.c:136-169 | a form of any origin is read exactly when it has at most eight addresses and each can be read; a selector over 64 octets counts as none |
| `Dse.BuildDirectory` | acsap/dse-c.c:66-113 | the list-building loop refines the encoder |
| `Dse.ParseDirectory` | acsap/dse-c.c:136-169 | the reading loop refines the decoder |
| `PaddrTheorems.CompactFormReadsBack` | compat/isoaddrs.c:1042-1122 | parsing the compact string gives the three selectors and the octets of each address in order, exactly when the address can be printed and each address starts with some community's macro value |
| `PaddrTheorems.StringsKeepAddresses` | compat/isoaddrs.c:1116-1120 | through the string and the octet reader an address comes back exactly when it survives the codec |
| `PaddrTheorems.SelectorReads` | compat/isoaddrs.c:1003-1038 | text, hexadecimal and empty selectors are read as printed, whatever follows |
| `PaddrTheorems.SelectorsRead` | compat/isoaddrs.c:369-430 | up to three printed selectors are read in order, empty ones between others included |
| `PaddrTheorems.AddressesRead` | compat/isoaddrs.c:437-785 | a list of printed addresses is read in order, or refused at the first without a community |
| `PaddrTheorems.NullpaIsRefused` | compat/isoaddrs.c:1064-1068 | the string that stands for a failure parses to nothing |
| `PaddrTheorems.HexReadsBack` | compat/explode.c:44-56 | imploding an exploded octet string gives it back |
| `PaddrSelectors.EveryFormReads` | compat/isoaddrs.c:369-430 | text, hexadecimal, `#` number and nothing, whoever wrote them, are read as the octets they stand for, most significant first; a number above 65535 is refused |
| `PaddrSelectors.BrokenFormsAreRefused` | compat/isoaddrs.c:375-417 | quotes that are not closed, a missing H and what is no hexadecimal are refused |
| `PaddrSelectors.EverySelectorParsed` | compat/isoaddrs.c:369-470 | up to three selectors of any form before addresses: the string is refused exactly when a number is too great or an address unknown, and otherwise each selector is in its place |
| `PaddrSelectors.SlashIsNeeded` | compat/isoaddrs.c:420-430 | a selector that no slash follows is refused |
| `PaddrAddresses.SelectorsPrintAs` | compat/isoaddrs.c:1003-1038 | letters, digits and three signs are printed in quotes, anything else as lower-case hexadecimal, and an empty selector as nothing |
| `PaddrAddresses.SelectorsPrinted` | compat/isoaddrs.c:1078-1092 | the selectors printed are the last ones, from the first that is not empty |
| `PaddrAddresses.SelectorPrinted` | compat/isoaddrs.c:1078-1092 | each of them has a slash behind it |
| `PaddrAddresses.AddressPrinted` | compat/isoaddrs.c:1112-1122 | a network address is printed as NS+ and its octets in lower-case hexadecimal, with a bar between two |
| `PaddrAddresses.PrintedExactly` | compat/isoaddrs.c:1043-1122 | NULLPA exactly when a network address cannot be normalised or there is nothing to print, and otherwise selectors and addresses |
| `PaddrAddresses.NsAddressRead` | compat/isoaddrs.c:438-514 | an NS+ address, written with a macro or not, in capitals or not: refused with digits that are no octets, and otherwise those octets and the community of the first longest prefix in them, or else of the first longest macro value |
| `PaddrAddresses.AddressRefused` | compat/isoaddrs.c:443-496 | refused are an unknown macro, no plus, and a beginning that is no community's value and no format's name |
| `PaddrAddresses.FormatsAre` | compat/isoaddrs.c:475-486 | the formats of addresses that need no community's value, compared without the last letter of their names |
| `PaddrAddresses.ThreeSelectorsAtMost` | compat/isoaddrs.c:369-435 | behind three selectors nothing is taken for a fourth |
| `PaddrAddresses.EightAddressesAtMost` | compat/isoaddrs.c:497-506 | of more than eight addresses the first eight are given, without the selectors |
| `PaddrLoops.ExplodeOctets` | compat/explode.c:44-56 | the loop computes the hexadecimal form |
| `PaddrLoops.ImplodeHex` | compat/implode.c:58-67 | the loop computes the octets |
| `PaddrLoops.CheckedHex` | compat/isoaddrs.c:311-326 | exactly even-length hexadecimal strings are imploded |
| `PaddrLoops.Sel2Str` | compat/isoaddrs.c:1003-1038 | the selector is quoted if it is plain and in hexadecimal otherwise |
| `PaddrLoops.SelectorsStr` | compat/isoaddrs.c:1078-1092 | a selector is printed if it or one before it is not empty |
| `PaddrLoops.CompactStr` | compat/isoaddrs.c:1043-1122 | the printing loop refines the printer |
| `PaddrLoops.FindByValue` | compat/isoaddrs.c:462-468 | the scan finds the longest macro value |
| `PaddrLoops.FindByPrefix` | compat/isoaddrs.c:775-780 | the scan finds the longest prefix |
| `PaddrLoops.NextSelector` | compat/isoaddrs.c:374-424 | the four selector forms and their errors |
| `PaddrLoops.ExpandMacro` | compat/isoaddrs.c:445-451 | the macro of the name before the equals sign is put in its place, or there is none |
| `PaddrLoops.NsAddress` | compat/isoaddrs.c:509-514 | the octets behind NS+ and the community that owns them |
| `PaddrLoops.ReadNumber` | compat/isoaddrs.c:387-390 | the digits of a numeric selector and their value |
| `PaddrLoops.NextAddress` | compat/isoaddrs.c:438-514 | macro expansion, community, separator, count and octets in the code's order |
| `PaddrLoops.Str2Paddr` | compat/isoaddrs.c:333-811 | the state loop refines the parser |
| `Macros.EqualNamesShareABucket` | compat/isoaddrs.c:46-49 | names equal but for case hash alike, below 128 |
| `Macros.ConvertedIs` | compat/isoaddrs.c:46-49 | characters are hashed as capitals, with a 0 behind the last |
| `Macros.HashIs` | compat/isoaddrs.c:46-49 | the bucket of a name: which bits of which of its characters, all as capitals |
| `Macros.ChainKnowsTheLatest` | compat/isoaddrs.c:119-126 | walking one chain answers with the latest definition in the whole list |
| `Macros.ExpandsBackExactly` | compat/isoaddrs.c:1250-1256 | an abbreviated value expands to itself exactly when the definition of the name up to its first equals sign restores it; for a name without one, when it was not redefined |
| `Macros.AbbreviationIsUndone` | compat/isoaddrs.c:445-450 | with distinct names that is so for every name without an equals sign, and for any other exactly when it is restored |
| `Macros.EqualsSignInNameIsLost` | compat/isoaddrs.c:445-450 | a macro with an equals sign in its name, whose abbreviation names no macro |
| `Macros.RedefinedExpandsToAnother` | compat/isoaddrs.c:261-262 | a redefined macro for which it does not |
| `Macros.Table.Name2Macro` | compat/isoaddrs.c:119-138 | the lookup loop gives the latest definition |
| `Macros.Table.Value2Macro` | compat/isoaddrs.c:142-172 | the search over all buckets gives a longest macro value of the string, or none exactly when there is none |
| `Macros.Table.AddMacro` | compat/isoaddrs.c:224-265 | the definition is appended, its own macro expanded, or dropped when that macro is unknown |
| `FtamGroupTheorems.AcceptedGroupsAreTheLegalOnes` | ftam/ftamgroup1.c:157-442 | a group is accepted exactly in the right state and class, with permitted parts, spelled begin, head, attribute actions, tail, end, and with the threshold that is the number of its PDUs less two |
| `FtamTables.AcceptedExactly` | ftam/ftamgroup1.c:151-446 | a group is accepted exactly when state and class are those of its type, it is spelled begin, head, attribute actions, tail, end, the threshold fits, the units of its PDUs are there and no parameter has a fault: the table of faults, attribute by attribute and lock by lock |
| `FtamTables.UnitsOfPdus` | ftam/ftamgroup1.c:241-252 | the functional unit of each PDU |
| `FtamTables.GroupsOfAttributes` | ftam/ftamgroup1.c:368-375 | the attribute group of each attribute |
| `FtamTables.FaultlessIs` | ftam/ftamgroup1.c:254-440 | the parameters of each PDU are in order exactly when the table finds no fault |
| `FtamTables.RepliesAcceptedExactly` | ftam/ftamgroup2.c:165-436 | a reply is accepted exactly when it is due, answers nothing that was not asked and no answer has a fault |
| `FtamTables.RepliesAreCut` | ftam/ftamgroup2.c:480-690 | of a reply with a failed select or create only that is sent, between begin and end |
| `FtamTables.RequestsSay` | ftam/ftamgroup1.c:478-690 | what each PDU of a request carries |
| `FtamTables.AnswersSay` | ftam/ftamgroup2.c:480-690 | what each answer carries: its state, and its attributes unless there are none to report |
| `FtamTables.OpenedExactly` | ftam/ftamgroup2.c:139-158 | after a reply that can be read a transfer is open for the responder exactly when head and open succeeded, for the initiator exactly when neither was reported as a failure |
| `FtamReading.RequestAutomatonIsTheGrammar` | ftam/ftamprovider.c:353-946 | the receiver's automaton takes exactly the groups of the service definition, stray delete requests aside |
| `FtamReading.ReplyAutomatonIsTheGrammar` | ftam/ftamprovider.c:437-946 | for replies it takes those and a select or create alone |
| `FtamReading.ResponderReadsTheGroup` | ftam/ftamprovider.c:390-946 | a group that was accepted and encoded is read exactly when none of its bit strings is empty, those in attributes included, and a file to be created has a name; its flags and threshold arrive, and its parameters, with the masks and values of attributes, exactly when nothing was given that was not negotiated, passwords for all or none, no mark on an absent attribute, and attribute values of the kind that is kept; the responder goes to the state of its type |
| `FtamLosses.EmptyAccessIsUnreadable` | ftam/ftambits.c:62-79 | an accepted group that asks for no access, which the responder cannot read |
| `FtamLosses.EmptyCreateIsUnreadable` | ftam/ftamprovider.c:489-497 | accepted creates without permitted actions or without a name, which the responder cannot read |
| `FtamLosses.PrivateUseIsRefused` | ftam/ftamattr.c:301-305 | an acceptable create with the private-use attribute, for which nothing is sent and no state changes |
| `FtamLosses.MissingNameIsLost` | ftam/ftamattr.c:56-86 | a select without any name, which is read but not as it was given |
| `FtamLosses.MarkIsLost` | ftam/ftamgroup1.c:383-385 | a change that marks an absent attribute as having no value, which is read but without the mark |
| `FtamReading.ResponderTakesOnlyLegalGroups` | ftam/ftamprovider.c:1367-1500 | whatever the peer sends, a group taken without a stray delete is one an initiator may send in that state and class |
| `FtamReading.StrayDeleteIsTaken` | ftam/ftamprovider.c:880-898 | a group that opens a file and then deletes it is taken for a management group |
| `FtamReading.StrayDeleteIsIllegal` | ftam/ftamgroup1.c:201-239 | no initiator can send that group |
| `FtamArrivals.RequestsToldExactly` | ftam/ftamprovider.c:1367-1500 | whatever the peer sends, a responder is told of a group, stray deletes aside, exactly when it is spelled as one of a type whose time it is, its threshold fits and each PDU can be read and has its unit; and the state it is then in |
| `FtamArrivals.RepliesToldExactly` | ftam/ftamprovider.c:1367-1500 | an initiator is told of a reply exactly when it waits for one of that type, each PDU can be read and has its unit, and answers what was asked |
| `FtamArrivals.SelectsTaken` | ftam/ftamprovider.c:390-436 | what is taken of a select of any origin: name, access, passwords and locks as they were negotiated, or an error |
| `FtamArrivals.CreatesTaken` | ftam/ftamprovider.c:471-539 | likewise of a create, with the attributes a new file may have |
| `FtamArrivals.NamesTaken` | ftam/ftamprovider.c:580-603 | the names of attributes to be read whose groups were negotiated |
| `FtamArrivals.ChangesTaken` | ftam/ftamprovider.c:637-670 | the attributes to be changed, or an error when one has a value and a mark |
| `FtamArrivals.OpensTaken` | ftam/ftamprovider.c:708-754 | mode, contents type, locks and locking of an open |
| `FtamArrivals.AnswersTaken` | ftam/ftamprovider.c:437-797 | of an answer its state and the attributes that may be there, or an error |
| `FtamReplies.AnswerIsRead` | ftam/ftamprovider.c:437-480 | an answer can be read exactly when its attributes have no empty bit string |
| `FtamReplies.AnswerKeepsAttributes` | ftam/ftamprovider.c:604-625 | and keeps its attributes, masks and values, exactly when they are of the kind that is kept |
| `FtamReplies.ReplyTaken` | ftam/ftamprovider.c:437-946 | the initiator can read an encoded reply exactly when it answers the whole group or its select or create alone, and no attribute in it has an empty bit string |
| `FtamReplies.RepliesAgreeExactly` | ftam/ftamgroup2.c:139-158 | a reply that was accepted and encoded is confirmed exactly then, and the two sides end in the same state exactly when, besides, the state of an open that was left out is success |
| `FtamLosses.EmptyAnswerIsUnreadable` | ftam/ftamprovider.c:604-625 | an accepted and complete reply with empty permitted actions in what was read, which ends the association |
| `FtamLosses.OpenLeftOutDisagrees` | ftam/ftamgroup2.c:139-158 | a reply after which one side is in the data regime and the other is not |
| `FtamRuns.CallIsExpected` | ftam/ftamprovider.c:260-1505 | in step, what one side may do and does is expected by the other, and they stay in step, exactly when the call is proper: a request that can be read, a reply that can be read and is consistent, or any other call |
| `FtamRuns.TransferReceives` | ftam/ftamprovider.c:1128-1223 | in a transfer only data, its end and a cancel are taken, and only by the side that gets data |
| `FtamCalls.CallsExactly` | ftam/ftambulk1.c:102-225 | a call outside groups is accepted exactly in the states, on the side and with the unit that the table has for it, and then says and leads to what the table has |
| `FtamCalls.ToldExactly` | ftam/ftamprovider.c:948-1285 | a PDU that stands alone is indicated exactly in the states, on the side and with the unit that the table of arrivals has |
| `FtamCalls.OpenAsTaken` | ftam/ftambulk1.c:118-130 | in step, a call is accepted exactly when the peer takes what it says, a cancel of an ending transfer, too much data and an identity with an erase aside |
| `FtamCalls.DataToldExactly` | ftam/ftamprovider.c:314-350 | data is taken exactly in a transfer towards that side |
| `FtamGroupCalls.GroupRequestsExactly` | ftam/ftamgroup1.c:82-147 | a group request is accepted exactly when side, time, spelling, threshold, units, parameters and every attribute to be sent are in order; then the group is kept, the state tells its type, and nothing else changes |
| `FtamGroupCalls.GroupResponsesExactly` | ftam/ftamgroup2.c:60-158 | a response exactly when it is due, answers what was asked without fault, says something, and every attribute to be sent can be; and the state it leads to |
| `FtamGroupCalls.UnseenExactly` | ftam/ftamprovider.c:1128-1193 | a PDU that stands alone is passed over, or answered unseen, exactly in a cancel, and exactly these are |
| `FtamGroupCalls.IndicatedExactly` | ftam/ftamprovider.c:1308-1365 | what an indication of such a PDU does to the side |
| `FtamGroupCalls.DataTaken` | ftam/ftamprovider.c:314-350 | data is added to what the getting side has, passed over in a cancel, and ends the association anywhere else |
| `FtamNet.NoSideIsSurprised` | ftam/ftamprovider.c:1296-1303 | over every interleaving of proper calls and arrivals in which no two cancels cross, no side meets a PDU it does not expect |
| `FtamNet.FinishedTransfersAgree` | ftam/ftambulk2.c:81-146 | the transfers the two sides saw to their end agree, data included, one list a beginning of the other |
| `FtamNet.DataArrivesInOrder` | ftam/ftambulk.c:70-110 | in a transfer each side has a beginning of what the other sent, in order, and only one of them sends |
| `FtamNet.EitherCrossingDooms` | ftam/ftamprovider.c:1178-1193 | a cancel made while the peer's is on its way leads to a collision |
| `FtamNet.CancelsCanCross` | ftam/ftambulk.c:282-290 | from any transfer at rest such a run exists |
| `FtamNet.CrossedCancelsAreFatal` | ftam/ftamprovider.c:1331-1353 | after a collision no run can take more than a bounded number of PDUs before a side aborts, and something is always on its way |
| `FtamBrackets.HistoryIsInOrder` | ftam/ftamprovider.c:1308-1361 | each side's past is a sequence of whole exchanges in their places and the beginning of one more that tells its state |
| `FtamBrackets.GroupsAreBracketed` | ftam/ftamgroup1.c:201-239 | in the confirmed groups files are opened inside a selection and closed before deselection, and one is open exactly in the data regime |
| `FtamBrackets.EveryOrderlyAssociation` | ftam/ftamprovider.c:1308-1505 | all of this from the start of an association |
| `FtamBlock.Ftamblk.CheckState` | ftam/ftamgroup1.c:157-196 | the switches on state and class |
| `FtamBlock.Ftamblk.CheckFlags` | ftam/ftamgroup1.c:198-239 | the tests and the switch on the flags |
| `FtamBlock.Ftamblk.CheckUnits` | ftam/ftamgroup1.c:241-252 | the three tests of functional units let every flag through that is permitted, and no other |
| `FtamBlock.Ftamblk.CheckFile` | ftam/ftamgroup1.c:315-341 | passwords and the eight locks of a select or create |
| `FtamBlock.Ftamblk.CheckAttrs` | ftam/ftamgroup1.c:368-375 | no attribute of a group that was not negotiated |
| `FtamBlock.Ftamblk.CheckCreation` | ftam/ftamgroup1.c:287-304 | the attributes of a new file |
| `FtamBlock.Ftamblk.CheckCreate` | ftam/ftamgroup1.c:273-313 | creation mode, attributes, passwords and locks |
| `FtamBlock.Ftamblk.CheckChange` | ftam/ftamgroup1.c:380-397 | the attributes to be changed |
| `FtamBlock.Ftamblk.CheckOpen` | ftam/ftamgroup1.c:407-435 | the mode and the locks of an open |
| `FtamBlock.Ftamblk.CheckParts` | ftam/ftamgroup1.c:254-440 | part after part with its count, a select jumping over the create |
| `FtamBlock.Ftamblk.CheckGroup` | ftam/ftamgroup1.c:151-446 | the checks in the code's order decide acceptability |
| `FtamParts.RequestPdu` | ftam/ftamgroup1.c:485-658 | a PDU of a request, with its attributes coded, unless they are refused |
| `FtamBlock.Ftamblk.GroupPdus` | ftam/ftamgroup1.c:478-690 | the row of conditionals emits the PDUs in their order, or nothing when some attribute is refused |
| `FtamBlock.Ftamblk.GroupRequest` | ftam/ftamgroup1.c:82-147 | accepted and encoded: state and group are set and the PDUs sent; otherwise nothing changes |
| `FtamBlock.Ftamblk.CheckReply` | ftam/ftamgroup2.c:165-436 | the checks on state, flags, attributes and open parameters of a reply, in the code's order, decide acceptability |
| `FtamParts.AnswerPdu` | ftam/ftamgroup2.c:500-680 | a PDU of a reply, with its attributes coded, unless they are refused; those of read and change answers only if some are present |
| `FtamBlock.Ftamblk.GroupResponse` | ftam/ftamgroup2.c:60-158 | accepted and encoded: the reply is sent, with the state a failed select or open leads to; otherwise nothing changes |
| `FtamBlock.Ftamblk.ReplyPdus` | ftam/ftamgroup2.c:480-690 | the row of conditionals emits the reply, cut down to a failed select or create, or nothing when some attribute is refused |
| `FtamBlock.Ftamblk.ReadWriteRequest` | ftam/ftambulk1.c:102-225 | guards, state and PDU of a read or write |
| `FtamBlock.Ftamblk.DataRequest` | ftam/ftambulk.c:62-115 | only the sending side sends data |
| `FtamBlock.Ftamblk.DataEndRequest` | ftam/ftambulk.c:153-235 | and ends it |
| `FtamBlock.Ftamblk.AccessResponse` | ftam/ftamaccess2.c:78-184 | the responder's answer, an identity only to a locate |
| `FtamParts.TakePdu` | ftam/ftamprovider.c:370-946 | what each case takes out of its PDU: attributes decoded and masked, passwords, locks and lists of bits, or an error |
| `FtamParts.TakeCreate` | ftam/ftamprovider.c:484-536 | a create: attributes decoded, the mandatory ones there, the others masked |
| `FtamBlock.CallIsWellSent` | ftam/ftamgroup1.c:104-118 | whatever a call sends is well-formed as the arrival methods require |
| `FtamBlock.Ftamblk.ReadPdus` | ftam/ftamprovider.c:353-1305 | the loop over the PDUs refines the automaton |
| `FtamBlock.Ftamblk.ReadSingle` | ftam/ftamprovider.c:948-1285 | the guards of the PDUs that stand alone |
| `FtamBlock.Ftamblk.ConcludeSingle` | ftam/ftamprovider.c:1308-1365 | the states they lead to, a cancel collision included |
| `FtamBlock.Ftamblk.ConcludeManagement` | ftam/ftamprovider.c:1377-1417 | a management group or its reply |
| `FtamBlock.Ftamblk.ConcludeBulkBegin` | ftam/ftamprovider.c:1419-1466 | a bulk-begin group or its reply, with the states reported |
| `FtamBlock.Ftamblk.ConcludeBulkEnd` | ftam/ftamprovider.c:1471-1500 | a bulk-end group or its reply |
| `FtamBlock.Ftamblk.ConcludeGroup` | ftam/ftamprovider.c:1367-1507 | threshold and switches conclude a group as the specification says |
| `FtamBlock.Ftamblk.DoPSdata` | ftam/ftamprovider.c:260-1512 | an arrival does what the specification says: abort, nothing seen, or an indication |
| `FtamNegotiation.FairIsAgreed` | ftam/ftaminitiate.c:450-551 | a response is accepted exactly when its own bits name one offered class, no unit or attribute group not offered, none illegal for the class, and reading or writing for a transfer; the agreed units are then those and the mandatory ones |
| `FtamNegotiation.OffersAreTakenIn` | ftam/ftamrespond.c:138-180 | the responder sees every offer as it was made |
| `FtamNegotiation.ViewsAgreeExactly` | ftam/ftamrespond.c:483-551 | every choice the responder may make is accepted, and the two sides hold the same units exactly when the choice has all mandatory ones |
| `FtamNegotiation.NegotiatedApart` | ftam/ftamrespond.c:506-542 | a choice without grouping after which the first group breaks the association |
| `FtamTerms.OfferedExactly` | ftam/ftaminitiate.c:55-87 | which offers are made, class by class and unit by unit, and what goes out |
| `FtamTerms.TakenInExactly` | ftam/ftamrespond.c:131-179 | which requests are taken in, and the classes, units and groups the responder sees |
| `FtamTerms.ChosenExactly` | ftam/ftamrespond.c:483-551 | which choices stand, for each class the units it needs one of and those it may not have |
| `FtamTerms.ConfirmedExactly` | ftam/ftaminitiate.c:450-551 | which responses are accepted, and the units the initiator then holds |
| `FtamNegotiation.TakeTokens` | ftam/ftaminitiate.c:405-429 | the association goes on exactly if the initiator owns every token required |
| `FtamNegotiation.Confirm` | ftam/ftaminitiate.c:450-551 | the code refines the agreement |
| `FtamAttributes.AttributesSurviveExactly` | ftam/ftamattr.c:314-490 | attributes that can be encoded come back, masks and values, exactly when each value is of the kind that is kept and no absent attribute is marked |
| `FtamAttributes.DecodesExactly` | ftam/ftamattr.c:348-354 | what was encoded is decoded exactly when neither the permitted actions nor those of an access-control element are empty |
| `FtamAttributes.MasksArrive` | ftam/ftamattr.c:314-490 | present arrives less an empty list of names and an empty account, and marks arrive on what is present only |
| `FtamAttributes.LocksAndPasswordsAreLost` | ftam/ftamacl.c:111-163 | attributes with a lock, or with one password, that come back changed |
| `FtamAttributes.AclReadBack` | ftam/ftamacl.c:106-164 | an access-control list comes back exactly when every element has an action, no locks, and no or all passwords |
| `FtamRefusals.RefusedExactly` | ftam/ftamattr.c:36-310 | attributes are refused exactly when one that is present cannot be sent, attribute by attribute, marked and not; otherwise each is sent with its mark or its value |
| `FtamRefusals.DecodingFailsExactly` | ftam/ftamattr.c:314-492 | a coding of any origin is not read exactly when it has too many names, no actions or an access-control element without any |
| `FtamRefusals.DecodedAsThere` | ftam/ftamattr.c:314-492 | and otherwise is read as it is, less an empty account and the locks, with all passwords or none |
| `FtamCodec.EncodeAttributes` | ftam/ftamattr.c:36-310 | the tests for one attribute after the other, and their refusals, compute the coding |
| `FtamCodec.DecodeAttributes` | ftam/ftamattr.c:314-492 | likewise the decoding |
| `FtamCodec.EncodedIsWellCoded` | ftam/ftamattr.c:52-307 | a coding has values of the right kinds |
| `FtamCodec.Acl2fpm` | ftam/ftamacl.c:36-101 | the list-building loop, with its refusals |
| `FtamCodec.Fpm2acl` | ftam/ftamacl.c:106-164 | the list-building loop, with its errors |
| `FtamCodec.Bits2fpm` | ftam/ftambits.c:36-56 | exactly the bits of the actions are set |
| `FtamCodec.Fpm2bits` | ftam/ftambits.c:62-79 | exactly the actions of the bits are found and counted, none being an error |
| `FtamCodec.BitsThereAndBack` | ftam/ftambits.c:50-78 | a set of actions comes back, with its count or the error for none |
| `Directory.OffsetsIncrease` | dirent/getdents.c:248-302 | the offsets invented increase strictly over the whole directory |
| `DirEntries.BlockIsConverted` | dirent/getdents.c:270-292 | the entries of a block that are not empty, all of them and in order, each with its number, its name, the smallest room for it and its byte position |
| `DirEntries.EveryEntryIsThere` | dirent/getdents.c:248-302 | the entries of a readable directory are exactly those on disk that are not empty, with the offsets as they are invented |
| `DirEntries.OffsetsArePlaces` | dirent/getdents.c:275-281 | with an entry in every block the offsets are the byte positions on disk |
| `DirEntries.DentsAreTheNext` | dirent/getdents.c:248-302 | one call gives the next block that is not all empty, or there is none |
| `DirEntries.DentsStopAt` | dirent/getdents.c:248-302 | in any directory a call ends at the first block it does not pass over: with the end, a failure or its entries |
| `DirEntries.ReaddirGivesTheDirectory` | dirent/readdir.c:31-46 | from the start, readdir gives the entries on disk one after the other and then nothing |
| `DirEntries.ReaddirEnds` | dirent/readdir.c:31-46 | at the end, or when a block cannot be converted, readdir gives nothing and goes on behind it when called again |
| `DirTheorems.ReaddirYieldsNext` | dirent/readdir.c:31-46 | readdir yields the next entry of the whole directory, through refills |
| `DirTheorems.SeekdirFindsEntries` | dirent/seekdir.c:57-107 | seekdir to any entry's offset ends, rewinds at most once, and the next readdir yields that entry |
| `DirTheorems.RewindsExactly` | dirent/seekdir.c:57-107 | seekdir rewinds exactly when the buffer, or the next one if none is filled, begins beyond the target or there is none |
| `DirTheorems.TelldirNamesNext` | dirent/telldir.c:32-35 | inside a buffer telldir gives the offset of the entry to be read next |
| `DirTheorems.TelldirThenSeekdirRestores` | dirent/telldir.c:32-35 | so seekdir to it restores the position |
| `DirTheorems.TelldirAtBoundary` | dirent/telldir.c:32-35 | what it gives between buffers |
| `DirTheorems.ToldPositionIsRefused` | dirent/telldir.c:32-35 | a directory whose second block begins with an empty entry: the position told after the first entry is refused by seekdir |
| `DirStream.FillBuffer` | dirent/getdents.c:248-302 | the loop over blocks refines the specification |
| `DirStream.ConvertBlock` | dirent/getdents.c:270-302 | the loop over one block invents the offsets of the specification |
| `DirStream.DIR.Next` | dirent/readdir.c:31-46 | one step of the scan |
| `DirStream.DIR.Read` | dirent/readdir.c:31-46 | readdir refines the specification |
| `DirStream.DIR.Tell` | dirent/telldir.c:32-35 | telldir |
| `DirStream.DIR.Scan` | dirent/seekdir.c:76-85 | the search of the buffer |
| `DirStream.DIR.Seek` | dirent/seekdir.c:57-107 | the loop with its rewind refines the specification |
| `DirStream.DIR.Rewind` | dirent/rewinddir.c:37-38 | back to the beginning |
| `GetCwd.PathIsFoundExactly` | dirent/getcwd.c:75-181 | wherever the directory stands, across mount points or not, the path is the names from the root joined by slashes, found exactly when there are fewer than 26 and it fits with its terminator; otherwise ERANGE if it is the room that is missing |
| `GetCwd.ClimbFrom` | dirent/getcwd.c:78-167 | from any level on, with what has been written so far |
| `GetCwdFailures.FailsAsFound` | dirent/getcwd.c:78-167 | behind the parents that list what is below them the climb fails with the error of opening the next, ENOENT if that does not list the directory, ENOMEM after 26, and before any of these with ERANGE once the names do not fit |
| `GetCwdFailures.FirstEntryFound` | dirent/getcwd.c:108-137 | of several entries that are the directory the first counts |
| `GetCwdFailures.NothingToStartFrom` | dirent/getcwd.c:60-73 | an empty buffer and a directory that cannot be examined |
| `GetCwd.SearchParent` | dirent/getcwd.c:108-137 | the first entry with the inode, or across a mount point with device and inode |
| `GetCwd.Append` | dirent/getcwd.c:141-165 | slash and reversed name are written exactly when they fit |
| `GetCwd.Straighten` | dirent/getcwd.c:171-176 | the in-place swap loop reverses the string |
| `GetCwd.GetcwdInto` | dirent/getcwd.c:42-190 | the buffer holds the path and its terminator, nothing at or beyond its size is written, and errno is restored |
| `SignalTheorems.NestingRestores` | compat/signals.c:82-128 | a nest of sigblock and sigsetmask restores the blocked set and every disposition, whatever arrives in between or between the statements of the calls |
| `SignalTheorems.NotedIsRaisedOnce` | compat/signals.c:110-124 | a signal noted while a guard blocks it, inside the calls too, is raised exactly once, and never handled meanwhile |
| `SignalTheorems.BlockedIsOnlyNoted` | compat/signals.c:75-79 | while blocked it is only noted |
| `SignalTheorems.SigsetmaskFromFate` | compat/signals.c:104-128 | the loop treats every signal as the masks before and after say |
| `SignalTheorems.BlockingIsSetting` | compat/signals.c:85-101 | sigblock is sigsetmask to what is blocked and what is to be |
| `SignalArrivals.SetMeetsArrivals` | compat/signals.c:110-124 | in each turn of the loop whatever arrives between its statements is noted or handled as often as it arrives |
| `SignalArrivals.HoldMeetsArrivals` | compat/signals.c:88-96 | likewise in sigblock |
| `SignalTable.Masks.SigBlock` | compat/signals.c:85-101 | the loop over signals refines the specification |
| `SignalTable.Masks.SigSetMask` | compat/signals.c:104-128 | likewise |
| `SignalTable.Masks.Note` | compat/signals.c:75-79 | the handler installs itself again and notes the signal |
| `SignalTable.Masks.Deliver` | compat/signals.c:75-79 | an arrival is noted by the handler, or the program's affair |
| `SignalTable.Masks.Hold` | compat/signals.c:91-95 | the statements that block a signal, with arrivals between them |
| `SignalTable.Masks.Release` | compat/signals.c:117-125 | the statements that let it through |
| `Tokens.TokenizeUndoesJoin` | compat/sstr2arg.c:72-156 | quoted, escaped and joined fields are split again, exactly when there is room for them |
| `Tokens.FieldsFit` | compat/sstr2arg.c:72-156 | between one and the permitted number of fields |
| `TokenEscapes.TokenizeMeans` | compat/sstr2arg.c:54-157 | whatever blanks, quotes, named and octal escapes and delimiters the fields are written with, what is split is what they mean, exactly when there are places for them |
| `TokenEscapes.PiecesRead` | compat/sstr2arg.c:84-140 | a field is read piece by piece as what the pieces mean |
| `TokenWritings.EveryStringIsSplit` | compat/sstr2arg.c:54-157 | every string is some writing of fields: its fields are what they mean, or too many, or a backslash at the end escapes nothing |
| `TokenBuffer.Sstr2arg` | compat/sstr2arg.c:54-157 | the in-place tokenizer yields the fields of the pure one, and writes nothing it has not read |
| `TokenBuffer.ReadInPlace` | compat/sstr2arg.c:82-153 | one field, the write position never passing the read position |
| `TokenBuffer.ReadOctal` | compat/sstr2arg.c:116-121 | an octal escape |
| `TokenBuffer.Turn` | compat/sstr2arg.c:84-151 | one turn of the loop |
| `X25Addr.RoundTripsExactly` | compat/x25addr.c:89-116 | if2gen after gen2if gives a numeric DTE, PID and user data back exactly on the stated numbers, and with user data empty or behind a full PID |
| `X25Addr.ThereAndBack` | compat/x25addr.c:692-708 | the numbers that survive, for every prefix list and both options |
| `X25Addr.NumbersLost` | compat/x25addr.c:89-116 | a foreign number starting with 0, a long local one and a short foreign one that do not survive |
| `X25Addr.LostOnTheWay` | compat/x25addr.c:251-277 | what becomes of the first, and of user data behind a short PID |
| `X25Addr.PackedDigitsReadBack` | compat/char2bcd.c:39-55 | packing keeps digits, even or odd in number |
| `X25Addr.UserDataSplits` | compat/x25addr.c:253-277 | PID and user data are told apart exactly with a full PID or no user data |
| `X25Calls.OctetsOfDigits` | compat/char2bcd.c:39-55 | two digits to an octet, the first in the high half |
| `X25Calls.OutwardExactly` | compat/x25addr.c:89-116 | a local prefix is stripped, and another number gets an international zero unless it begins with a known prefix |
| `X25Calls.InwardExactly` | compat/x25addr.c:692-708 | one international zero is taken off, and otherwise a short number is taken for a local one |
| `X25Calls.PassedExactly` | compat/x25addr.c:250-274 | digits and user data as the provider gets them, and the one refusal |
| `X25Calls.ComesExactly` | compat/x25addr.c:495-508 | number, PID and user data as they come back |
| `X25Addr.Char2bcd` | compat/char2bcd.c:39-55 | the nibble-writing loop computes the packing |
| `X25Addr.Bcd2char` | compat/bcd2char.c:37-51 | the loop computes the characters |
| `X25Addr.ChooseDigits` | compat/x25addr.c:89-116 | prefix search, stripping and international zero |
| `X25Addr.RestoreDigits` | compat/x25addr.c:692-708 | and back |

## Left out

- Datagrams: the start of a CLTS server, `write_dgram_socket`, the check for a live descriptor; addresses are whole `sockaddr` structures, of which six octets are compared or as many as there are, up to fourteen (the code may look at two more); a read that blocks is given a finite list of answers; a failed allocation counts as no arrival.
- DatagramTheorems.JoinAcceptsTheOldest: addresses are copied whole; 4.4BSD copies as many octets as `sa_len` says, so with a shorter length part of the child's peer is what the caller passed and the slot held before, and for a source without a length all of it. The same holds of `DatagramFates.OwnPeerMatchesExactly`.
- DatagramTable.Demux.StartServer: does not model `socket`, the search for a free port and the socket options; the bound descriptor is a parameter.
- Network addresses: strings are unbounded, and an outcome of its own stands for the inputs on which C leaves its buffers; the address read into is zeroed beforehand; ports are in host order; the other X.25 forms and facilities.
- PaddrLoops.NextAddress: gives only `OtherForm` for addresses in the AFI, IDI and DSP, RFC 1006 and X.25 forms and for those of more than `NASIZE` octets, which are not modelled.
- PaddrLoops.Str2Paddr: gives only `Unmodelled` for strings with such an address.
- Presentation-address strings: the AFI, IDI and DSP forms and the RFC 1006 and X.25 forms of addresses (the parser's outcome is then `Unmodelled`), addresses of more than `NASIZE` octets, printing that is not compact, and buffer sizes. `acsap/isoalias.c` keeps its table like `Macros` and is not modelled twice.
- FtamBlock.Ftamblk.GroupResponse: does not model the checks on the number of diagnostics and on charges.
- FtamBlock.Ftamblk.DataRequest: does not model the check that each data element is there and in a context that was negotiated; elements are numbers here.
- FtamBlock.Ftamblk.DoPSdata: does not model a P-DATA that carries both data and PDUs.
- FtamNegotiation.Confirm: does not model presentation context management, the quality of service and the result of the FTAM context; tokens are in `TakeTokens`.
- FTAM: presentation and session services other than P-DATA; resynchronisation, which `FInitializeRequest` never negotiates (`ftam/ftaminitiate.c` clears it); P-DATA that carries both data and PDUs; a P-DATA request that fails; FADU identities, access contexts, shared information, accounts, the contents type and locks an open answer reports, diagnostics and charges, whose encoders may refuse a call and whose decoders read whatever they sent (`ftam/ftamfaduid.c`, `ftam/ftamshare.c`, `ftam/ftamdiag.c`, `ftam/ftamchrg.c`); termination and user aborts; what `FInitializeRequestAux` returns when a bit string of the response is empty.
- FTAM attributes: dates are assumed to survive, and a bit string is the set of what its bits stand for, which `FtamCodec.BitsThereAndBack` justifies.
- Directory streams: a read gives one whole block, directories do not change and can be read, the buffer size and name offset are fixed, and there is no variant for NFS; failing `lseek`.
- `GetCwd`: a buffer allocated by `getcwd` itself; names are at most as long as the file system allows.
- Signals: masks are sets, the program's handlers leave their dispositions as they are, and a statement happens at once, `sigser` being one: an arrival in the middle of `pending &= ~smask`, or before `sigser` has installed itself again, is not modelled.
- Tokens: characters are unsigned; a string that ends in a backslash has an outcome of its own, since C then reads beyond it.
- X.25: the other providers, the mapping between structures and network addresses, the length of the DTE buffers; DTEs are of digits.
- ACSE, DASE, logging, tailoring, and reading macro files.
