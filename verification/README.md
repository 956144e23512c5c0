# Mitvane verification

Mitvane is an inline filter for V2X traffic: it reads frames from one link, matches them
against rules written in YAML, and forwards them on another link or drops them. This
project models its logic in Dafny and proves what the parts promise one another and what
the whole promises its user.

| file | models |
|---|---|
| Base.dfy | optional values, bytes, ordered filtering |
| Yaml.dfy | the node tree a rule file is parsed into |
| Signature.dfy | signatures, stored patterns, the signature table |
| PatternReader.dfy, RuleReader.dfy | from rule text to signatures |
| RuleAcceptance.dfy | which rules are accepted, and what they store |
| DetectionContext.dfy | what one packet's stages share, and packet memory |
| BtpDecoder.dfy, GeonetDecoder.dfy | the staged decoder and the hand-over of the packet |
| GeonetDetector.dfy, MessageHandler.dfy | the counting matcher and the fold of actions |
| Bridge.dfy | the pipeline for one packet and the receive loop |
| EndToEnd.dfy | from rule text to forwarded frames, over whole runs |
| ProxyHandler.dfy | the asynchronous proxy between UDP and a radio |
| Asn1Wrapper.dfy | owning wrappers around raw ASN.1 structs |
| Heading.dfy, Positions.dfy, CamPermissions.dfy | headings, positions and altitudes, CAM permissions |
| BitStream.dfy, Uper.dfy, UperStreams.dfy | packed bits, table-driven packing, the packing runtime |
| EventHistory.dfy | the packed event history, from its constraint tables |

## How it is modelled

- Code that changes objects is a class whose methods are proved against specification
  functions; theorems over whole runs are lemmas about those functions.
- Memory nobody initialised is an explicit parameter. A field is assigned before use when
  the result is the same for every such parameter; where it is not, the model says for
  which frames. `IsFreshData` says only that fields of optional type start empty.
- Header parsing, conversions of YAML text to numbers, the geodesy tests and the hashes are
  foreign: they are function parameters, without assumptions but one: the foreign payload
  view of a UDP datagram lies inside the datagram (`IsFormats`).
- The log is a sequence of lines, kept by the handler object for the length of a run.
- Completions of asynchronous operations are events that may come in any order in which
  they are possible. The kernel may write into a receive buffer at any time while a receive
  is outstanding, and a send reads its buffer when it completes.
- An exception or a call through a null pointer is an outcome. After it nothing more happens.
- Lengths and angles are exact real numbers. One full circle is a parameter, so that it may
  be irrational. Lengths that may be NaN or infinite are a datatype.
- Machine arithmetic is written out where it matters: 64-bit lengths in the proxy, 64-bit
  sizes in the constraint on emergency priorities, 64-bit integers in packing.
- Header-type codes are those of section 9.7.4 of ETSI EN 302 636-4-1. Packing follows
  sections 11.5, 11.9, 13, 19 and 20 of ITU-T X.691 as far as the code does.

## Where code and promise differ

- The manual says a rule's `mhl` matches packets with a larger hop limit; the code also
  matches an equal one (`MhlAgainstManual`).
- The manual lists TSB and SHB as different schemes; the code compares only the upper four
  bits of the header type and cannot tell them apart (`HtAgainstManual`).
- A rule with a `destination_area` never fires: the test for it is commented out, but the
  keyword still counts towards the number of stored keywords (`MatchesByKeyword`).
- A missing or ill-formed revision is reported with the codes of the identifier.
- Without a GeoNetworking rule in force the verdict rests on two uninitialised variables
  (`VerdictWithoutRules`); a beacon is matched against an uninitialised position
  (`VerdictIsSettledIffSource`).
- A BTP frame to a port without a parser is a call through a null pointer, which ends the
  run; `Bridge.IdpsContext.Run` says exactly when it happens and what is left behind.
- A frame that is passed up but is not BTP leaves its packet alive with nobody owning it;
  `Bridge.RawSocketLink.Serve` counts these.
- The last certificate of a chain is read without asking whether there is one; what an
  empty chain yields is a parameter of the frame.
- The proxy subtracts the checksum from the length of radio frames too short to have one
  (`SlicesAreSoundIffNoRunt`).
- Swapping wrappers swaps the contents of their descriptors, which are shared objects;
  harmless as long as a type has one descriptor (`SwapFitsIff`, `CopyAssignFitsIff`).
- The constraint function for a delta time is stricter than its packing table, which is
  extensible; and nothing but the writer checks the number of points of a history.
- The constraint on emergency priorities computes a size in bits that wraps around for
  strings of more than 2^61 bytes (`ValidPriorityIsOneByte`).

## Model

Main results are the first rows of each part; the others say what single functions do.

| member | source | states |
|---|---|---|
| EndToEnd.VerdictFromText | mitvane/idps_context.cpp:62-104 | main result: with a GeoNetworking rule in force, a foreign frame that decodes through a header with a source position (and to a registered port if it is BTP) is forwarded exactly when no drop rule of the file text has all its keywords satisfied, whatever uninitialised memory holds |
| EndToEnd.VerdictOnFacts | mitvane/idps_context.cpp:62-104 | the same for every foreign frame that does not go to a port without a parser, on the facts the matcher sees, be they stated by a header or garbage |
| EndToEnd.VerdictWithoutRules | mitvane/idps_context.cpp:82-98 | without a GeoNetworking rule in force every such frame is forwarded if and only if the two variables nobody set happen to allow it |
| EndToEnd.VerdictIsSettledIffSource | mitvane/decoder/geonet_decoder.cpp:229-254 | under a file with one source-range rule, uninitialised memory never decides a frame if and only if its headers state a source position; for any other, such as a beacon, the same file yields both verdicts |
| EndToEnd.VerdictUnderRangeRule | mitvane/detector/geonet_detector.cpp:130-149 | under that file the frame is forwarded exactly when the position the matcher sees lies within the circle |
| EndToEnd.AlertsFromText | mitvane/message_handler/message_handler.cpp:63-84 | what is logged for a proper frame is, in file order, one line for each GeoNetworking rule in force that fires, with the message, identifiers and action of its text |
| EndToEnd.AlertsOnFacts | mitvane/message_handler/message_handler.cpp:63-84 | the same for every foreign frame on the facts the matcher sees |
| EndToEnd.RunFromText | mitvane/raw_socket_link.cpp:68-87 | with a GeoNetworking rule in force, over every sequence of completions the transmitted frames are those the text of the rule file lets through, up to the first read error or frame to a port without a parser |
| EndToEnd.AlertRunFromText | mitvane/raw_socket_link.cpp:68-87 | and the logged lines are those the text calls for, with or without GeoNetworking rules |
| EndToEnd.PickedByHeaders | mitvane/raw_socket_link.cpp:76-87 | completion by completion: while the loop receives, a proper frame is forwarded exactly when the text lets it through on the facts its headers state, whatever the other completions are |
| EndToEnd.RunIsInOrderFilter | mitvane/raw_socket_link.cpp:76-87 | the transmitted frames are the received ones at strictly increasing positions, byte for byte, and exactly those that pass before the loop ends |
| EndToEnd.FilterTraffic | mitvane/main.cpp:123-190 | the program: status of the file, frames sent and lines logged as the text says, for every sequence of completions, and whether a receive is outstanding; a failing status keeps the rules read so far, an exception ends the program |
| EndToEnd.EnableAll | mitvane/main.cpp:182-185 | enabling the parsers one by one registers the last one given for each port but port 0 |
| EndToEnd.LastParserIsRegistered | mitvane/main.cpp:182-185 | a port has a parser exactly if it is not 0 and some parser was given for it, and then the last one given |
| EndToEnd.AlertIsStated | mitvane/message_handler/message_handler.cpp:58-68 | the line of a rule: message, identifier and revision of its text, and its action |
| EndToEnd.StoredMatchesText | mitvane/detector/geonet_detector.cpp:94-198 | on the signature stored for an accepted rule the counting matcher decides exactly what the text of the rule says about the packet |
| EndToEnd.CondemnedByText | mitvane/message_handler/message_handler.cpp:70-84 | some stored signature condemns a packet if and only if some drop rule in the text fires on it |
| EndToEnd.CollectedAlerts | mitvane/message_handler/message_handler.cpp:70-84 | the lines for the matching stored signatures are those for the firing rules, with multiplicity |
| EndToEnd.AcceptedIsWellTyped | mitvane/rule_reader/pattern_reader.cpp:34-170 | every stored signature holds, per keyword, the alternative and the word the matcher extracts |
| EndToEnd.WellTypedNeverThrows | mitvane/detector/geonet_detector.cpp:98-155 | on such signatures no extraction throws and the skipping branches for unknown words are unreachable |
| EndToEnd.CollectedNeverThrows | mitvane/detector/geonet_detector.cpp:98-155 | so no signature the reader ever stores makes the matcher throw |
| EndToEnd.MatchesByKeyword | mitvane/detector/geonet_detector.cpp:94-198 | a stored signature matches when its next-header, header-type, hop-limit and range patterns hold and it has no destination area |
| EndToEnd.CollectedMembers | mitvane/rule_reader/rule_reader.cpp:187-191 | exactly the signatures of accepted rules of a stored protocol are in its vector |
| EndToEnd.SomeGeonetRuleCollected | mitvane/rule_reader/rule_reader.cpp:180-193 | the GeoNetworking vector is non-empty exactly when a GeoNetworking rule is in force |
| EndToEnd.GeonetRuleIsStored | mitvane/rule_reader/rule_reader.cpp:144-158 | the protocol and action words of an accepted rule decide whether it is stored for GeoNetworking and whether it drops |
| PatternReading.ReadGeonetPattern | mitvane/rule_reader/pattern_reader.cpp:32-174 | the keyword loop returns the status of the first faulty keyword and, without one, stores the reading of each keyword given |
| PatternReading.ReadKeyword | mitvane/rule_reader/pattern_reader.cpp:36-169 | one turn of the loop reads what the keyword means, with the fault of each malformed shape, word or number |
| PatternReading.ReadArea | mitvane/rule_reader/pattern_reader.cpp:64-104 | a destination area: two scalar distances, checks before conversions |
| PatternReading.ReadRange | mitvane/rule_reader/pattern_reader.cpp:105-164 | an allowed source range: a circle in any letter case and two scalar distances |
| PatternReading.ReadFacilityPattern | mitvane/rule_reader/pattern_reader.cpp:176-209 | walking the GeoNetworking keywords stores nothing and fails only where subscripting throws |
| PatternReading.SucceedsWithoutFaults | mitvane/rule_reader/pattern_reader.cpp:34-174 | success exactly when no keyword is faulty |
| PatternReading.StoredIsRead | mitvane/rule_reader/pattern_reader.cpp:34-170 | the stored map has a keyword exactly when the rule gives it, with its reading |
| PatternReading.FaultIsFinal | mitvane/rule_reader/pattern_reader.cpp:34-170 | a fault in a prefix of the keyword list decides the outcome |
| RuleAcceptance.AcceptedIffSound | mitvane/rule_reader/rule_reader.cpp:126-231 | main result: exactly these rules are accepted, in terms of the text and the conversions: action "alert" or "drop", one of fourteen protocol words, metadata with three scalars of which two convert, and for GeoNetworking five keywords each absent or well formed |
| RuleAcceptance.HeadStatus | mitvane/rule_reader/rule_reader.cpp:129-174 | the status of a rule whose action, protocol or metadata is not sound: that of the first thing wrong with it |
| RuleAcceptance.PatternStatusIs | mitvane/rule_reader/pattern_reader.cpp:34-170 | the status of a rule with an unsound keyword: that of the first, in the order of the keyword list, an exception where a number or text does not convert |
| RuleAcceptance.CleanPrefixIsSound | mitvane/rule_reader/rule_reader.cpp:126-231 | the rules in force are the sound ones before the first that is not; success exactly when all are sound |
| RuleAcceptance.FileStatusIs | mitvane/rule_reader/rule_reader.cpp:116-124 | files that do not load, or have no sequence of rules |
| RuleAcceptance.AcceptedHead | mitvane/rule_reader/rule_reader.cpp:138-175 | action, protocol, message, identifier and revision stored for an accepted rule, as its text says |
| RuleAcceptance.AcceptedPatterns | mitvane/rule_reader/pattern_reader.cpp:34-170 | one stored pattern for each keyword the text gives, holding what the text says, and no others |
| RuleAcceptance.ActionWords | mitvane/rule_reader/rule_reader.cpp:36-47 | what the action words name |
| RuleAcceptance.ProtocolWords | mitvane/rule_reader/rule_reader.cpp:49-71 | what each of the fourteen protocol words names, and that no other word names a protocol |
| RuleReading.RuleReader.Read | mitvane/rule_reader/rule_reader.cpp:114-232 | whatever the status, the table is the old one filled with the longest error-free prefix of the rules |
| RuleReading.RuleReader.ReadRules | mitvane/rule_reader/rule_reader.cpp:126-231 | the loop over the rules returns the status of the first faulty one |
| RuleReading.RuleReader.ReadRule | mitvane/rule_reader/rule_reader.cpp:127-229 | one rule is either faulty and stores nothing, or accepted and stored |
| RuleReading.RuleReader.Append | mitvane/rule_reader/rule_reader.cpp:187-191 | creating or extending a vector appends one signature |
| RuleReading.ReadHead | mitvane/rule_reader/rule_reader.cpp:129-175 | action, protocol and metadata, or the status of the first thing wrong with them |
| RuleReading.ReadMetadata | mitvane/rule_reader/rule_reader.cpp:73-112 | message, identifier, revision in this order; a bad revision is reported with the codes of the identifier |
| RuleReading.ReadProtocol | mitvane/rule_reader/rule_reader.cpp:49-71 | the protocol a word names in any letter case |
| RuleReading.FilledIsCollected | mitvane/rule_reader/rule_reader.cpp:126-231 | prefix law: each vector is its old value followed by the signatures of its protocol, in file order |
| RuleReading.FilledWhenCollected | mitvane/rule_reader/rule_reader.cpp:187-191 | a vector exists only if it did or received a signature |
| RuleReading.CleanPrefix | mitvane/rule_reader/rule_reader.cpp:126-231 | an error-free prefix followed by the end or a faulty rule |
| RuleReading.CleanPrefixIsUnique | mitvane/rule_reader/rule_reader.cpp:126-231 | there is only one such prefix |
| GeonetDetection.CountingIsConjunction | mitvane/detector/geonet_detector.cpp:94-197 | the count of satisfied keywords equals the number of stored ones exactly when every stored keyword is one with a test and its test holds; an empty pattern map matches every packet |
| GeonetDetection.Matching | mitvane/detector/geonet_detector.cpp:94-198 | its members are exactly the matching signatures |
| GeonetDetection.GeonetDetector.Detect | mitvane/detector/geonet_detector.cpp:88-200 | the result is the ordered subsequence, with multiplicity, of the matching signatures; it throws exactly when some signature makes an extraction throw |
| GeonetDetection.GeonetDetector.CountKeywords | mitvane/detector/geonet_detector.cpp:95-197 | one signature: throws, is skipped or is counted, and reaches the full count exactly when it matches |
| GeonetDetection.GeonetDetector.TransformNh | mitvane/detector/geonet_detector.cpp:57-68 | the next header a word names; the output is untouched on error |
| GeonetDetection.GeonetDetector.TransformHt | mitvane/detector/geonet_detector.cpp:70-85 | the header-type family a word names; the output is untouched on error |
| GeonetDetection.KeywordsTest | mitvane/detector/geonet_detector.cpp:98-155 | what each keyword tests, in literal terms |
| GeonetDetection.MhlAgainstManual | mitvane/detector/geonet_detector.cpp:123-128 | the manual promises "larger than"; the code agrees with it exactly off equality |
| GeonetDetection.HtAgainstManual | mitvane/detector/geonet_detector.cpp:110-122 | the words for multi-hop and single-hop broadcast match the same packets; each is right exactly when the packet is not of the other kind |
| MessageHandling.MessageHandler.Handle | mitvane/message_handler/message_handler.cpp:70-84 | drops exactly when some matched signature does more than alert; one log line for each, in order |
| MessageHandling.UnknownActionsDrop | mitvane/message_handler/message_handler.cpp:78-81 | an action that is neither alert nor drop drops as well and leaves a line of its own |
| GeonetDecoding.AssignsBeforeUse | mitvane/decoder/geonet_decoder.cpp:125-281 | once a source position is parsed, everything the detector reads comes from the header that carries it; security is "signed" exactly on the secured path, and a plain frame leaves the certificate fields unset |
| GeonetDecoding.AssignedExactlyBy | mitvane/decoder/geonet_decoder.cpp:125-254 | for every frame, each field the detector reads is free of garbage if and only if the stage that parses it was reached |
| GeonetDecoding.FieldsAreStated | mitvane/decoder/geonet_decoder.cpp:125-254 | what every field says after decoding, in terms of the headers that were reached |
| GeonetDecoding.SignerIsStated | mitvane/decoder/geonet_decoder.cpp:47-86 | the certificate data: only on the secured path, from the signer, a chain counting by its last certificate |
| GeonetDecoding.GeonetDecoder.Decode | mitvane/decoder/geonet_decoder.cpp:88-123 | whole effect on the context; the packet is alive and owned by nobody exactly if the frame was passed up, destroyed otherwise |
| GeonetDecoding.GeonetDecoder.DecodeBasic | mitvane/decoder/geonet_decoder.cpp:125-149 | basic stage and everything below it |
| GeonetDecoding.GeonetDecoder.DecodeSecured | mitvane/decoder/geonet_decoder.cpp:182-218 | secured stage: signer information, then the payload's common stage |
| GeonetDecoding.GeonetDecoder.InspectSignerInfo | mitvane/decoder/geonet_decoder.cpp:47-86 | payload type, version, signer kind, chain size and the certificate the signer names, which for an empty chain is a stray one |
| GeonetDecoding.GeonetDecoder.DecodeCommon | mitvane/decoder/geonet_decoder.cpp:151-180 | common stage and everything below it |
| GeonetDecoding.GeonetDecoder.DecodeExtended | mitvane/decoder/geonet_decoder.cpp:220-275 | extended stage: moves the packet out, stores the raw pointer, destroys or passes up |
| GeonetDecoding.GeonetDecoder.PassUp | mitvane/decoder/geonet_decoder.cpp:277-281 | hands the packet to the BTP stage, which gives it up alive |
| BtpDecoding.Ports | mitvane/decoder/btp_decoder.cpp:35-67 | ports for BTP only; source port exactly for type A, port information exactly for type B |
| BtpDecoding.BtpDecoder.ParseBtpHeader | mitvane/decoder/btp_decoder.cpp:35-67 | sets the BTP data for the two BTP protocols and leaves it alone otherwise |
| BtpDecoding.BtpDecoder.Decode | mitvane/decoder/btp_decoder.cpp:70-75 | parses, then releases: the packet stays alive and is nobody's |
| Detection.DetectionContext.constructor | mitvane/idps_context.cpp:66-66 | a context starts with garbage in its plain fields |
| Bridge.IdpsContext.Run | mitvane/idps_context.cpp:62-104 | one packet, for every outcome: the disposition is the specified verdict, the frame is sent exactly if forwarded, BTP payloads are adopted and destroyed once, one packet is left alive exactly for passed-up frames that are not BTP and before a call of a null parser, and one line is logged for each matching signature if there is a verdict, none otherwise |
| Bridge.IdpsContext.DecodeAndParse | mitvane/idps_context.cpp:68-80 | fails exactly when a null parser would be called; otherwise hands the payload to the registered parser once; what stays alive and what the look-up does to the parser table in both cases |
| Bridge.IdpsContext.Classify | mitvane/classifier/classifier.cpp:36-44 | the parser of the destination port; looking up an unknown port creates a null entry |
| Bridge.IdpsContext.Enable | mitvane/idps_context.cpp:106-111 | registers a parser unless its port is 0 |
| Bridge.IdpsContext.Disable | mitvane/idps_context.cpp:113-118 | maps the port to null unless it is 0 |
| Bridge.IdpsContext.SetApplicationLayerParser | mitvane/idps_context.cpp:57-60 | overwrites one entry |
| Bridge.IdpsContext.Judge | mitvane/idps_context.cpp:81-95 | throws exactly when some signature does, and then logs nothing; otherwise asks for a drop exactly when the packet is condemned and logs one line for each matching signature in order |
| Bridge.DropIsCondemnation | mitvane/idps_context.cpp:84-95 | filtering the signatures and folding their actions asks for a drop exactly when a listed signature condemns the packet |
| Bridge.IgnoredIff | mitvane/raw_socket_link.cpp:89-101 | a frame is not the business of the filter exactly when it is shorter than 14 octets, when octets 6 to 11 are the own address, or when octets 12 and 13 are not 0x89 0x47 |
| Bridge.OnlyForeignFramesAreSent | mitvane/idps_context.cpp:64-64 | over every run, nothing with the own address as its source or of another type is sent |
| Bridge.ParserIsThatOfDestination | mitvane/idps_context.cpp:73-80 | a BTP frame goes to the parser at the destination port its own header states and to that only, or through a null pointer without one; other frames go to nobody |
| Bridge.OutcomeOf | mitvane/idps_context.cpp:62-104 | the order of outcomes: null pointer, exception, verdict; only a verdict lets the loop go on |
| Bridge.RawSocketLink.OnRead | mitvane/raw_socket_link.cpp:76-87 | copies the bytes, calls back on frames with a link header, re-arms unless there was an error |
| Bridge.RawSocketLink.Complete | mitvane/raw_socket_link.cpp:68-87 | one completion keeps exactly one receive outstanding, or none after an error |
| Bridge.RawSocketLink.Serve | mitvane/raw_socket_link.cpp:68-87 | over every sequence of completions, up to and including the first that ends the loop: what was sent, what was logged, how many packets stay alive, and that exactly one receive is outstanding until the loop ends and none after |
| Bridge.TraceRunParts | mitvane/raw_socket_link.cpp:68-87 | frames, lines and packets of a run are those of its completions one after the other |
| Bridge.NothingAfterAnError | mitvane/raw_socket_link.cpp:76-78 | a read error adds nothing and ends the loop |
| Bridge.RawSocketLink.Transmit | mitvane/raw_socket_link.cpp:57-61 | sends the bytes as they are |
| Bridge.RawSocketLink.constructor | mitvane/raw_socket_link.cpp:32-37 | opening a link issues its first receive |
| Proxy.ProxyHandler.Complete | cohda_proxy/proxy_handler.cpp:79-185 | every completion, and every write of the kernel into a receive buffer, takes the handler from a state of the abstract relay to its successor: sends read reused buffers only when they complete and still hand over the frame fixed at arrival |
| Proxy.RelayTraffic | cohda_proxy/proxy_handler.cpp:40-185 | a proxy from construction on, under every interleaving: what the radio was given plus the frame being sent is what the datagrams call for; what went out by UDP plus the datagram being sent is what the radio frames call for, to the first sender, and nothing goes out without one |
| Proxy.Serve | cohda_proxy/proxy_handler.cpp:63-185 | the handler follows the relay through every possible interleaving |
| Proxy.RadioTraceRefines | cohda_proxy/proxy_handler.cpp:86-110 | the frames given to the radio are, in order, without loss or duplication, those of the sound datagrams with a header, each with the descriptor its own header asks for |
| Proxy.UdpTraceRefines | cohda_proxy/proxy_handler.cpp:112-185 | likewise towards UDP, once that direction runs |
| Proxy.PendingSendsAreStable | cohda_proxy/proxy_handler.cpp:127-185 | no event of any interleaving changes the bytes, header or descriptor a pending send refers to |
| Proxy.StartUpIsSafe | cohda_proxy/proxy_handler.cpp:63-110 | the direction to UDP runs exactly when the first receive succeeded, always to the sender of that datagram; after a first error it never runs |
| Proxy.StaysOnOrOff | cohda_proxy/proxy_handler.cpp:79-110 | after the first completion that direction is never switched on or off, and sends nothing while off |
| Proxy.SlicesAreSoundIffNoRunt | cohda_proxy/proxy_handler.cpp:112-125 | every datagram carries exactly the bytes between descriptor and checksum if and only if no frame shorter than both arrived |
| Proxy.RuntWraps | cohda_proxy/proxy_handler.cpp:114-120 | a frame of exactly descriptor length: the length wraps around |
| Proxy.OneDatagram | cohda_proxy/proxy_handler.cpp:132-168 | what a single datagram calls for: channel, coding, power, the priority of its category, the payload behind its header; nothing if it is too short or an error |
| Proxy.OneRadioFrame | cohda_proxy/proxy_handler.cpp:112-125 | what a single radio frame of descriptor, n bytes and four more calls for: exactly those n bytes |
| Proxy.NoRadioFrame | cohda_proxy/proxy_handler.cpp:112-125 | shorter frames and errors call for nothing |
| Proxy.ProxyHandler.StartTransfer | cohda_proxy/proxy_handler.cpp:63-69 | starts in the initial state of the relay |
| Proxy.ProxyHandler.HandleUdpReceiveFrom | cohda_proxy/proxy_handler.cpp:79-86 | switches the other direction on unless there was an error, then goes on as for any datagram |
| Proxy.ProxyHandler.HandleUdpReceive | cohda_proxy/proxy_handler.cpp:88-97 | sends long enough datagrams, receives again otherwise |
| Proxy.ProxyHandler.HandleOtaReceive | cohda_proxy/proxy_handler.cpp:112-125 | sends what follows the descriptor, four bytes fewer in 64-bit arithmetic |
| Proxy.ProxyHandler.HandleOtaSend | cohda_proxy/proxy_handler.cpp:127-130 | receives the next datagram |
| Proxy.ProxyHandler.HandleUdpSend | cohda_proxy/proxy_handler.cpp:99-102 | receives the next radio frame |
| Proxy.ProxyHandler.SendOta | cohda_proxy/proxy_handler.cpp:132-168 | power and priority from the header of the datagram itself |
| Proxy.ProxyHandler.SendUdp | cohda_proxy/proxy_handler.cpp:170-185 | header for the payload, to the first sender |
| Proxy.ProxyHandler.constructor | cohda_proxy/proxy_handler.cpp:40-51 | nothing outstanding, default descriptor |
| Asn1Wrapping.NothingLeaks | vanetza-extension/asn1/asn1c_wrapper.hpp:72-129 | once every wrapper is destroyed nothing is live and every struct handed out has been freed exactly once, whatever the program did |
| Asn1Wrapping.ProgramsKeepOwnership | vanetza-extension/asn1/asn1c_wrapper.hpp:72-129 | over every legal program non-null wrappers and live structs correspond one to one |
| Asn1Wrapping.ExecKeepsOwnership | vanetza-extension/asn1/asn1c_wrapper.hpp:72-129 | every command keeps that, self-assignment and failing copies included |
| Asn1Wrapping.CommandsAreIsolated | vanetza-extension/asn1/asn1c_wrapper.hpp:76-93 | copies are deep, moves hand over, a copy that throws changes nothing, and no command changes a wrapper it does not name |
| Asn1Wrapping.Program.Execute | vanetza-extension/asn1/asn1c_wrapper.hpp:72-129 | through temporaries and swaps on real objects, a command has the effect stated for it in one piece |
| Asn1Wrapping.Program.Run | vanetza-extension/asn1/asn1c_wrapper.hpp:72-129 | so does a whole program |
| Asn1Wrapping.Wrapper.constructor | vanetza-extension/asn1/asn1c_wrapper.hpp:72-73 | allocates one zeroed struct |
| Asn1Wrapping.Wrapper.CopyOf | vanetza-extension/asn1/asn1c_wrapper.hpp:77-78 | a copy owns a new struct with the same content; a failing copy leaves no object |
| Asn1Wrapping.Wrapper.CopyAssign | vanetza-extension/asn1/asn1c_wrapper.hpp:79-84 | copies, then frees the old struct; exchanges the contents of the two descriptors; strong guarantee when copying throws |
| Asn1Wrapping.Wrapper.Moved | vanetza-extension/asn1/asn1c_wrapper.hpp:87-88 | takes the struct over and leaves the source null |
| Asn1Wrapping.Wrapper.MoveAssign | vanetza-extension/asn1/asn1c_wrapper.hpp:89-93 | swaps, also over different descriptors |
| Asn1Wrapping.Wrapper.Swap | vanetza-extension/asn1/asn1c_wrapper.hpp:125-129 | swaps the pointers and, the descriptor being a reference, the contents of the two descriptors |
| Asn1Wrapping.Wrapper.Destroy | vanetza-extension/asn1/asn1c_wrapper.hpp:74-74 | frees the struct held, if any |
| Asn1Wrapping.SwapFitsIff | vanetza-extension/asn1/asn1c_wrapper.hpp:125-129 | over different descriptors a swap keeps descriptors fitting their structs exactly when the two say the same or no third non-null wrapper refers to either |
| Asn1Wrapping.SwapCanMisfit | vanetza-extension/asn1/asn1c_wrapper.hpp:125-129 | a case with two descriptors and three wrappers in which it does not |
| Asn1Wrapping.SwapNamed | vanetza-extension/asn1/asn1c_wrapper.hpp:125-129 | swapping real wrappers has on all of them the effect the two rows above speak of |
| Asn1Wrapping.CopyAssignFitsIff | vanetza-extension/asn1/asn1c_wrapper.hpp:79-84 | a copy assignment keeps descriptors fitting exactly when the two say the same; otherwise the source itself no longer fits |
| Asn1Wrapping.AssignNamed | vanetza-extension/asn1/asn1c_wrapper.hpp:79-84 | copy-assigning real wrappers has that effect on all of them |
| Asn1Wrapping.StructHeap.Allocate | vanetza-extension/asn1/asn1c_wrapper.cpp:62-69 | a fresh live struct |
| Asn1Wrapping.StructHeap.Free | vanetza-extension/asn1/asn1c_wrapper.cpp:71-76 | frees a live struct once; null is ignored |
| Asn1Wrapping.StructHeap.Copy | vanetza-extension/asn1/asn1c_wrapper.cpp:78-97 | a deep copy, or an exception after which a partial struct has been freed |
| HeadingComparison.SimilarIffSomeTurn | vanetza-extension/facilities/cam_functions.cpp:85-93 | two angles are similar exactly when some whole-turn shift of one is within the limit of the other, for every limit |
| HeadingComparison.SimilarityAddsUp | vanetza-extension/facilities/cam_functions.cpp:85-93 | triangle law |
| HeadingComparison.WholeTurnsDoNotMatter | vanetza-extension/facilities/cam_functions.cpp:85-93 | invariance under whole turns on either side |
| HeadingComparison.SimilarityIsSymmetric | vanetza-extension/facilities/cam_functions.cpp:85-93 | symmetry |
| HeadingComparison.HeadingsCompareInTenths | vanetza-extension/facilities/cam_functions.cpp:56-71 | comparing two headings is a comparison of whole tenths of a degree modulo 3600, both being available |
| PositionCoding.ReadBackIsNear | vanetza-extension/facilities/functions.cpp:94-103 | what is read back from a written angle is within half a microdegree of it |
| PositionCoding.EncodeIsNearest | vanetza-extension/facilities/functions.cpp:94-103 | no whole number of microdegrees is nearer than the one written, which is a multiple of ten |
| PositionCoding.RewriteIsIdentityIff | vanetza-extension/facilities/functions.cpp:57-66 | reading and writing again is the identity exactly on multiples of ten |
| PositionCoding.WritingTwiceIsWritingOnce | vanetza-extension/facilities/functions.cpp:94-103 | so a written angle is settled |
| PositionCoding.EncodeIsMonotone | vanetza-extension/facilities/functions.cpp:94-103 | writing keeps the order |
| PositionCoding.WrittenIsNeverUnavailable | vanetza-extension/facilities/functions.cpp:88-91 | a written angle is never a code for "unknown" |
| PositionCoding.WrittenIsAcceptedIff | vanetza-extension/asn1/its/Latitude.c:24-24 | the constraints accept a written angle exactly within half a microdegree of their range |
| PositionCoding.ReferencePosition.Copy | vanetza-extension/facilities/functions.cpp:101-114 | overwrites every field; the result is available and reads back near the fix |
| PositionCoding.WrittenFields | vanetza-extension/facilities/functions.cpp:101-114 | every written field in literal terms, the altitude from its value and its confidence from its confidence |
| PositionCoding.AvailableIff | vanetza-extension/facilities/functions.cpp:88-91 | the codes for unknown, and the scale of what is read back |
| PositionCoding.HalvesGoAway | vanetza-extension/facilities/functions.cpp:94-99 | halves are rounded away from zero |
| PositionCoding.ReadBackCuts | vanetza-extension/facilities/functions.cpp:57-66 | reading back cuts towards zero on both sides of it |
| PositionCoding.DistanceOfCopies | vanetza-extension/facilities/functions.cpp:51-114 | copying two fixes and measuring never loses the distance |
| PositionCoding.AltitudeIsCutToCentimetres | vanetza-extension/facilities/functions.cpp:155-165 | the code is the clamped altitude cut towards zero, at most a centimetre away |
| PositionCoding.WholeCentimetresAreKept | vanetza-extension/facilities/functions.cpp:155-165 | a whole number of centimetres is kept exactly within the bounds |
| PositionCoding.AltitudeIsMonotone | vanetza-extension/facilities/functions.cpp:155-165 | order is kept, infinities included |
| PositionCoding.AltitudeIsAccepted | vanetza-extension/asn1/its/AltitudeValue.c:24-24 | every code passes the constraint; the code for "unknown" is kept for NaN |
| PositionCoding.ConfidenceIsLeastBound | vanetza-extension/facilities/functions.cpp:116-153 | a confidence that is not negative gets a code of at most k exactly when it is at most the k-th bound |
| PositionCoding.ConfidenceUnavailableIff | vanetza-extension/facilities/functions.cpp:120-121 | unavailable exactly for NaN and negative values |
| CamPermissions.CheckServiceSpecificPermissions | vanetza-extension/facilities/cam_functions.cpp:97-182 | accepted exactly when the permission of every restricted element present is held |
| CamPermissions.RequiredBySpecial | vanetza-extension/facilities/cam_functions.cpp:110-179 | the set collected for a special vehicle is what its elements need |
| CamPermissions.AddingElementsKeepsRefusal | vanetza-extension/facilities/cam_functions.cpp:97-182 | adding an element or taking a permission away never turns refusal into acceptance |
| CamPermissions.ValidPriorityIsOneByte | vanetza-extension/asn1/its/EmergencyPriority.c:10-39 | the constraint on the priority, in 64-bit arithmetic: one byte with six unused bits, exactly, for sizes whose bit count fits |
| CamPermissions.ValidPriorityIsNeverSkipped | vanetza-extension/facilities/cam_functions.cpp:146-156 | for a valid priority the length guard hides no request |
| CamPermissions.RequestBits | vanetza-extension/facilities/cam_functions.cpp:150-156 | the request bits are the highest and the second highest of the byte |
| CamPermissions.SpecialNeedsAre | vanetza-extension/facilities/cam_functions.cpp:110-179 | the set of permissions each kind of container calls for |
| CamPermissions.AcceptedIffCalledForAreHeld | vanetza-extension/facilities/cam_functions.cpp:97-182 | a message is accepted exactly when the sets its containers call for are held |
| CamPermissions.EmergencyIsAcceptedIff | vanetza-extension/facilities/cam_functions.cpp:146-156 | the consequence for an emergency vehicle with a valid priority |
| PackedBits.TakeAfterPut | vanetza-extension/asn1/support/asn_bit_data.c:62-142 | reading n bits after writing n bits gives the number modulo 2^n and leaves the rest alone |
| PackedBits.PutAfterTake | vanetza-extension/asn1/support/asn_bit_data.c:191-277 | what was read is what would be written |
| PackedBits.BitIsAt | vanetza-extension/asn1/support/asn_bit_data.c:191-277 | the most significant bit comes first |
| PackedBits.PutWholeIsPut | vanetza-extension/asn1/support/per_support.c:149-161 | writing a wide number in chunks, low chunk split off first, writes it as one piece |
| PackedBits.TakeWholeIsTake | vanetza-extension/asn1/support/per_support.c:124-146 | reading it in chunks, high chunk first, reads it as one piece, up to 64 bits |
| PackedBits.SkipRedundant | vanetza-extension/asn1/support/INTEGER.c:965-978 | the loop over leading octets |
| PackedBits.StripKeepsTheNumber | vanetza-extension/asn1/support/INTEGER.c:959-975 | skipping redundant octets keeps the number |
| PackedBits.StripIsShortest | vanetza-extension/asn1/support/INTEGER.c:959-975 | and gives the shortest octets for it |
| PackedBits.SignedOfOctets | vanetza-extension/asn1/support/INTEGER.c:803-820 | octets of a number denote it in two's complement |
| Uper.RoundTrip | vanetza-extension/asn1/support/constr_SEQUENCE.c:1075-1485 | main result: for every type whose tables are sound, reading what was written recovers the value and leaves the bits behind it untouched |
| Uper.WritingIsPrefixFree | vanetza-extension/asn1/support/constr_SEQUENCE.c:1354-1485 | no written value is a prefix of another |
| Uper.IntegerRoundTrip | vanetza-extension/asn1/support/INTEGER.c:582-798 | integers, inside their bounds or in extension form |
| Uper.OpenRoundTrip | vanetza-extension/asn1/support/INTEGER.c:786-795 | the extension form: length and shortest octets |
| Uper.OpenIsShortest | vanetza-extension/asn1/support/INTEGER.c:959-978 | the extension form is a length octet and then the fewest octets that denote the number, one to eight |
| Uper.OpenSize | vanetza-extension/asn1/support/INTEGER.c:786-795 | its size |
| Uper.LongOfIff | vanetza-extension/asn1/support/INTEGER.c:823-871 | octets give a machine number exactly when the number they denote is one |
| Uper.FragmentsRoundTrip | vanetza-extension/asn1/support/per_support.c:13-44 | octets of any number behind lengths of seven bits, fourteen bits or fragments come back |
| Uper.LengthIsTaken | vanetza-extension/asn1/support/per_support.c:13-44 | what the reader does with a written length |
| Uper.OctetIsAt | vanetza-extension/asn1/support/asn_bit_data.c:284-310 | octets lie one behind the other |
| Uper.LongListsAreRefused | vanetza-extension/asn1/support/constr_SET_OF.c:965-979 | more than 200 elements are refused |
| Uper.RangedRoundTrip | vanetza-extension/asn1/support/per_support.c:234-295 | rebasing to the lower bound and back |
| Uper.RecordRoundTrip | vanetza-extension/asn1/support/constr_SEQUENCE.c:1075-1485 | sequences with optional members |
| Uper.ListRoundTrip | vanetza-extension/asn1/support/constr_SET_OF.c:907-1000 | lists with a size constraint |
| Uper.WidthSufficesIff | vanetza-extension/asn1/support/per_support.c:124-161 | a width makes every number between the bounds come back if and only if it holds the largest offset |
| Uper.DecodedIsWritten | vanetza-extension/asn1/support/constr_SET_OF.c:907-1000 | whatever is read can be written again exactly when its lists are not longer than allowed; without extensible tables the bits read are then the ones written |
| UperStreams.Transfer | vanetza-extension/asn1/support/constr_SEQUENCE.c:1075-1485 | what the writing runtime puts into a stream, followed by anything, the reading runtime gets back, and what followed is left |
| UperStreams.OutStream.PutValue | vanetza-extension/asn1/support/constr_SEQUENCE.c:1354-1485 | the writing runtime appends exactly the specified bits, or fails exactly when there are none |
| UperStreams.OutStream.PutInteger | vanetza-extension/asn1/support/INTEGER.c:699-798 | integers |
| UperStreams.OutStream.PutLength | vanetza-extension/asn1/support/per_support.c:167-192 | a length or part of it, and whether a length of zero has to follow |
| UperStreams.OutStream.PutOctetsWithLengths | vanetza-extension/asn1/support/INTEGER.c:786-795 | the loop over fragments |
| UperStreams.OutStream.PutSequence | vanetza-extension/asn1/support/constr_SEQUENCE.c:1388-1463 | presence bits, then the members that are there |
| UperStreams.OutStream.PutSequenceOf | vanetza-extension/asn1/support/constr_SEQUENCE_OF.c:144-226 | count, then the elements |
| UperStreams.InStream.GetValue | vanetza-extension/asn1/support/constr_SEQUENCE.c:1075-1301 | the reading runtime returns exactly the specified value and rest, or fails exactly when there is none |
| UperStreams.InStream.GetInteger | vanetza-extension/asn1/support/INTEGER.c:582-697 | integers |
| UperStreams.InStream.GetOpen | vanetza-extension/asn1/support/INTEGER.c:664-681 | octets behind a length, in fragments if need be |
| UperStreams.InStream.GetMembers | vanetza-extension/asn1/support/constr_SEQUENCE.c:1126-1184 | members according to the presence bits |
| UperStreams.InStream.GetSequenceOf | vanetza-extension/asn1/support/constr_SET_OF.c:907-1000 | count and elements; more than 200 elements are refused |
| EventHistories.HistoryIsWritten | vanetza-extension/asn1/its/EventHistory.c:13-17 | exactly the histories of 1 to 23 writable points are written: five bits for the count less one, then the points in the order of the tables |
| EventHistories.PointIsWritten | vanetza-extension/asn1/its/EventPoint.c:10-56 | a point: presence bit, position, optional delta time, quality; written exactly when the constraint functions accept position and quality |
| EventHistories.PositionIsWritten | vanetza-extension/asn1/its/DeltaReferencePosition.c:10-38 | latitude, longitude, altitude offsets in this order at 18, 18 and 15 bits, exactly when the constraint functions accept them |
| EventHistories.DeltaTimeIsWritten | vanetza-extension/asn1/its/PathDeltaTime.c:42-46 | any delta time is written: 16 bits inside its bounds, octets outside |
| EventHistories.DeltaTimeSize | vanetza-extension/asn1/its/PathDeltaTime.c:42-46 | its size: 17 bits inside the bounds, a mark, a length octet and the fewest octets outside |
| EventHistories.SmallDeltaTimeSizes | vanetza-extension/asn1/its/PathDeltaTime.c:42-46 | 17 bits for 0 and 33 for 65536 |
| EventHistories.HistoryRoundTrip | vanetza-extension/asn1/its/EventHistory.c:13-51 | reading a written history recovers it and leaves trailing bits alone |
| EventHistories.AcceptedHistoriesSurvive | vanetza-extension/asn1/its/EventHistory.c:13-51 | every history of 1 to 23 points the constraint functions accept survives packing |
| EventHistories.PackedHistoriesAreDistinct | vanetza-extension/asn1/its/EventHistory.c:13-51 | packed histories are told apart, also in a stream |
| EventHistories.PackedSize | vanetza-extension/asn1/its/EventHistory.c:13-17 | a packed history has 5 bits and 55 or 72 for each point, never more than 1661 |
| EventHistories.ReaderTakesUpTo32 | vanetza-extension/asn1/support/constr_SET_OF.c:945-952 | the reader also takes the bits of 24 to 32 points, which the writer refuses |
| EventHistories.DeltaTimeHasTwoForms | vanetza-extension/asn1/support/INTEGER.c:604-608 | a delta time inside its bounds has a second form that is read but never written |
| EventHistories.WidthsAreLeast | vanetza-extension/asn1/its/DeltaLatitude.c:42-46 | each declared width is the least with which every number between the bounds comes back |

## Left out

- Sockets, devices, command-line options, position providers, log formatting and all printed output.
- The header parsers, packet classes, certificates and hashes of the vanetza library, and the geodesy library: function parameters.
- YAML lexing and number syntax: conversions are parameters, a failing conversion is an exception; how yaml-cpp reads a null as text is a parameter.
- Exceptions thrown by the BTP header parsers or inside an application parser.
- GeonetDecoding.GeonetDecoder.InspectSignerInfo: for an empty chain says that some hash is stored, not that reading past the list may end the program.
- What a process does after an exception ended it, and the termination signal.
- A link without a callback, which reads, discards and re-arms.
- The application parsers themselves: what they are handed is modelled, what they do with it is not.
- Unknown access categories in the proxy, which end it by an assertion.
- Setting channel or coding in the proxy while a transfer runs.
- `get_signal_power` and the rounding to half decibels: part of the foreign formats.
- The insertion and removal of radio headers in `cohda.cpp`, which rest on structures of a development kit.
- Rounding of floating-point numbers: comparisons on a bound and the cut to centimetres may differ by one unit in the last place of a double.
- PositionCoding.DistanceOfCopies: says how near the measured points are, not how near the distance is, because the geodesic is foreign.
- Asn1Wrapping.StructHeap.Copy: the content of a struct is one integer; that encoding and decoding reproduce it is taken from the outcome parameter.
- Validation, printing and the OER, BER and XER codecs of the ASN.1 runtime.
- Byte buffers and refilling in the bit streams: a stream is a sequence of bits.
- Uper.RoundTrip: no extension additions, default values, open types, semi-constrained integers or lists with unbounded or extensible size; none of the modelled tables has any.
- The other generated types: same shape as the chosen ones.
- Unused code: the circle inclusion test, the BTP detector and `size_oer`.
