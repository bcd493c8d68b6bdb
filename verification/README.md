# Uni.Net: a verified model of the network services

This project models the parts of Uni.Net that keep state over many steps, and proves what
every run of them keeps. It covers seven components, each in its own group of files:

| component | files | source |
|---|---|---|
| ARP cache | `ArpTable`, `ArpCache`, `ArpFrames` | `3rdparty/freertos_tcp/src/FreeRTOS_ARP.c` |
| HTTP server | `HttpRequest`, `HttpLength`, `HttpBuffer`, `HttpServer`, `HttpStream`, `HttpDelivery`, `HttpFiles`, `HttpReplies`, `HttpSessions`, `HttpConnection` | `src/uni_net_http_server.c` |
| BitConfig cursor | `BitCursor` | `3rdparty/freertos_tcp/src/FreeRTOS_BitConfig.c` |
| DHCPv6 messages | `Dhcpv6Parser`, `Dhcpv6SubLoop`, `Dhcpv6Codec`, `Dhcpv6Analysis`, `Dhcpv6Wire`, `Dhcpv6Client` | `3rdparty/freertos_tcp/src/FreeRTOS_DHCPv6.c` |
| DHCPv4 client | `SharedSocket`, `Dhcpv4Options`, `Dhcpv4Terms`, `Dhcpv4Machine`, `Dhcpv4Lease`, `Dhcpv4Reply`, `Dhcpv4BackOff`, `Dhcpv4Course`, `Dhcpv4Client` | `3rdparty/freertos_tcp/src/FreeRTOS_DHCP.c` |
| UDP server | `UdpReceive`, `UdpLifecycle`, `UdpStop`, `UdpServe`, `UdpRace` | `src/uni_net_udp_server.c` |
| FTP client start-up | `FtpStartup`, `FtpSending`, `FtpClient` | `src/uni_net_ftp_client.c` |

Each component has the same shape. A module of datatypes and functions says what one step
does to the state as a value, and what a run, a sequence of steps, does. Lemmas about runs
state the main results. Where the source updates its state in place, a class with the
source's fields does the same step by step, with the source's branches and loops, and its
contracts equate the new state with the value-level step; so the results about runs hold for
the class. Table sizes, buffer sizes, periods, retry limits, tick rate and the number of
end-points are parameters. Clocks, random numbers, received bytes, the transmit space, the
success of sends and the answers of application hooks are inputs of a step.

`dafny verify dfyconfig.toml` checks everything.

## Where the code differs from what one would expect

- The header says that a look-up in the ARP cache refreshes the entry's age
  (`3rdparty/freertos_tcp/include/FreeRTOS_ARP.h:116`). The code does not do that; the model
  follows the code.
- "A row has age zero exactly when its address is zero" is kept by a step exactly when the step
  does not give an age to a free row, which takes an event that names address zero
  (`ArpTable.StepKeepsAgesIff`, with `ArpTable.ZeroAddressExample` as an instance). The guard of a
  refresh lets address zero through when the network part of some end-point's address is zero, as
  it is before the end-point has an address.
- A gratuitous ARP frame whose sender address is a broadcast or multicast address is found
  "resolved" without being in the cache, and then enters it (`ArpFrames.ForeignFrameAddsIff`
  gives the exact condition, `ArpFrames.BroadcastAddressIsAdded` an instance).
- The HTTP parser ends the URL with a NUL in place. When the URL runs up to the CRLF of the request
  line, the NUL erases that CRLF and the first header line is not read
  (`HttpRequest.ContentLengthOfHead`; `HttpRequest.ShortRequestLosesFirstLine` and
  `HttpRequest.LostLengthExample` for request lines without a version).
- Bytes of a following HTTP request that arrive in the receive that completes the head of a POST
  or GET are dropped (`HttpDelivery.FollowingBytesKeptIff`, `HttpFiles.FollowingBytesKeptIff`). If no
  receive returns bytes of two requests, all of them are served (`HttpSessions.AllAreServed`).
- A DHCPv6 sub-option of unknown code moves the index to its own length, counted from the start of
  the whole option, so it can lead back. The loop never ends exactly if the positions it visits,
  which depend on the bytes alone, come back to one of them (`Dhcpv6SubLoop.LoopsForEverIff`): a
  sub-option that leads to itself (`Dhcpv6SubLoop.LoopingExample`), or a longer cycle
  (`Dhcpv6SubLoop.CyclingExample`).
- A comment in the DHCPv4 option handler says that only the first DNS server is taken
  (`3rdparty/freertos_tcp/src/FreeRTOS_DHCP.c:1054-1056`); the code takes a list.
- The count of mandatory DHCPv4 options does not tell options apart: two server identifiers pass
  as an offer without a message type, and two message types as an acknowledgement without a server
  (`Dhcpv4Options.PassesWronglyIff` gives the exact condition).
- The doubled DHCPv4 period is a 32-bit number. With a maximum of at least half its range the
  doubling can wrap around and the client never gives up (`Dhcpv4BackOff.GivesUpIff`,
  `Dhcpv4BackOff.WrappingNeverGivesUp`).
- Stopping the UDP server while it is being set up can meet a lock or a socket that the server task
  has deleted or closed since stop looked at it (`UdpRace.StopMissesLockIff` and
  `UdpRace.StopMissesSocketIff` say exactly in which states); after initialization it cannot
  (`UdpRace.InitializedStopIsLegal`).
- When a positive or negative reply follows the FTP greeting in one batch, the first start-up command
  is skipped (`FtpStartup.GreetingWithAnswerSkips`); `FtpStartup.WholeScriptIsSentIff` gives the
  exact condition.

## Model
| member | source | states |
|---|---|---|
| ArpTable.StepKeepsInjective | 3rdparty/freertos_tcp/src/FreeRTOS_ARP.c:619-694 | whatever a refresh, ageing, clear, remove or age-refresh step does, no nonzero address and no nonzero MAC comes to be in two rows |
| ArpTable.RunKeepsInjective | 3rdparty/freertos_tcp/src/FreeRTOS_ARP.c:552-694 | in every run of such steps the table stays a partial injection |
| ArpTable.StepKeepsAgesIff | 3rdparty/freertos_tcp/src/FreeRTOS_ARP.c:583-691 | a step keeps "age zero exactly when address zero" if and only if it does not give an age to a free row, which takes an event that names address zero |
| ArpTable.RunKeepsAges | 3rdparty/freertos_tcp/src/FreeRTOS_ARP.c:552-691 | runs in which no event gives an age to a free row keep the age rule |
| ArpTable.NonzeroAddressesKeepAges | 3rdparty/freertos_tcp/src/FreeRTOS_ARP.c:552-691 | naming nonzero addresses only is enough: every run of such events keeps the age rule |
| ArpTable.ZeroAddressExample | 3rdparty/freertos_tcp/src/FreeRTOS_ARP.c:615-691 | on an empty table of any size, one refresh with address zero and any MAC address breaks the age rule |
| ArpTable.RefreshUpdatesMap | 3rdparty/freertos_tcp/src/FreeRTOS_ARP.c:619-691 | seen as a map, a refresh with a MAC binds the address to that MAC and end-point and removes at most the one address in the row it overwrites |
| ArpTable.ViewIsLookup | 3rdparty/freertos_tcp/src/FreeRTOS_ARP.c:1053-1087 | the map is what a look-up returns, both ways |
| ArpTable.DisplacedOnlyWhenMovedOrFull | 3rdparty/freertos_tcp/src/FreeRTOS_ARP.c:726-810 | the address a refresh displaces is its own, had the same MAC, or is one of minimum age in a full table, so a live row is never evicted while one is free |
| ArpTable.ReserveUpdatesMap | 3rdparty/freertos_tcp/src/FreeRTOS_ARP.c:619-691 | reserving a row for an unanswered address keeps a known entry, and otherwise makes the address pending in a row of minimum age |
| ArpTable.RowLifetime | 3rdparty/freertos_tcp/src/FreeRTOS_ARP.c:1098-1138 | a row that only ageing touches keeps its address until exactly its age-th ageing step and is then free |
| ArpTable.RowRequests | 3rdparty/freertos_tcp/src/FreeRTOS_ARP.c:1098-1138 | until then it asks for an ARP request on each of its last four steps if it is valid, on every step if it is unanswered, and never twice in a step |
| ArpTable.RefreshSetsRow | 3rdparty/freertos_tcp/src/FreeRTOS_ARP.c:619-691 | after a refresh one row holds the address: with that MAC address, the maximum age, valid, and that end-point |
| ArpTable.ReserveSetsRow | 3rdparty/freertos_tcp/src/FreeRTOS_ARP.c:619-691 | a row reserved for a new address has the number of retransmissions as its age and is not valid |
| ArpTable.UnansweredLifetime | 3rdparty/freertos_tcp/src/FreeRTOS_ARP.c:1098-1138 | an address that nobody answers for is asked for as often as retransmissions are allowed, once on each ageing pass, and then its row is free |
| ArpTable.ResolvedLifetime | 3rdparty/freertos_tcp/src/FreeRTOS_ARP.c:1098-1138 | a resolved address lives for exactly the maximum age, and is asked for on the last four of those passes |
| ArpTable.RemoveUpdatesMap | 3rdparty/freertos_tcp/src/FreeRTOS_ARP.c:552-571 | removing a MAC address removes from the map exactly the address that it held |
| ArpTable.AgeRefreshIs | 3rdparty/freertos_tcp/src/FreeRTOS_ARP.c:583-606 | refreshing an age gives the row with both addresses the maximum age, changes no other row and no look-up |
| ArpTable.First | 3rdparty/freertos_tcp/src/FreeRTOS_ARP.c:479-504 | the first matching row: it matches and no earlier one does, or none matches |
| ArpTable.Oldest | 3rdparty/freertos_tcp/src/FreeRTOS_ARP.c:797-805 | the first row of minimum age |
| ArpCache.Cache.constructor | 3rdparty/freertos_tcp/src/FreeRTOS_ARP.c:112-113 | the cache starts empty |
| ArpCache.Cache.FindCacheEntry | 3rdparty/freertos_tcp/src/FreeRTOS_ARP.c:705-813 | one scan finds the rows for the address, the MAC and the minimum age; a row that holds both is refreshed on the spot |
| ArpCache.Cache.RefreshCacheEntry | 3rdparty/freertos_tcp/src/FreeRTOS_ARP.c:619-694 | the rows become those of a refresh step |
| ArpCache.Cache.AgeCache | 3rdparty/freertos_tcp/src/FreeRTOS_ARP.c:1098-1138 | the rows become those of an ageing step, and the addresses to ask for are exactly those of the rows about to expire or unanswered, in row order |
| ArpCache.Cache.ClearArp | 3rdparty/freertos_tcp/src/FreeRTOS_ARP.c:1423-1441 | the rows become those of a clear step |
| ArpCache.Cache.RemoveCacheEntryByMac | 3rdparty/freertos_tcp/src/FreeRTOS_ARP.c:552-571 | the first row with the MAC is cleared, and its address returned |
| ArpCache.Cache.RefreshCacheEntryAge | 3rdparty/freertos_tcp/src/FreeRTOS_ARP.c:583-607 | the age of the row with both address and MAC is set to the maximum |
| ArpCache.Cache.CacheLookup | 3rdparty/freertos_tcp/src/FreeRTOS_ARP.c:1053-1087 | hit with MAC and end-point, unresolved, or miss, as the first row with the address says |
| ArpCache.Cache.IsIpInCache | 3rdparty/freertos_tcp/src/FreeRTOS_ARP.c:479-504 | says whether the first row with the address is there and valid |
| ArpFrames.ProcessPacket | 3rdparty/freertos_tcp/src/FreeRTOS_ARP.c:141-434 | the cache after a received frame, and the exact frame that answers a request for the own address |
| ArpFrames.OwnFrameIsLearned | 3rdparty/freertos_tcp/src/FreeRTOS_ARP.c:285-434 | every request for, or reply to, the end-point from a host on a local subnet is learned whatever the cache holds: its sender resolves to its MAC address, and at most one other address is lost |
| ArpFrames.AnswerResolves | 3rdparty/freertos_tcp/src/FreeRTOS_ARP.c:405-434 | an address that was asked for is unresolved until its reply arrives, and then resolves to the sender of the reply |
| ArpFrames.FrameChangesIff | 3rdparty/freertos_tcp/src/FreeRTOS_ARP.c:141-434 | for every frame: the cache changes if and only if the frame teaches some address, by exact conditions on the frame, the routing and the look-up, and the row for it is not all that already; what it teaches is that address with the MAC address of the sender |
| ArpFrames.GetCacheEntryIs | 3rdparty/freertos_tcp/src/FreeRTOS_ARP.c:882-1040 | what an address resolves to: groups and broadcasts by the end-point for them, a local address by its own entry, any other by the entry of the gateway |
| ArpFrames.ForeignFrameAddsIff | 3rdparty/freertos_tcp/src/FreeRTOS_ARP.c:285-346 | a frame not meant for the end-point brings a new address into the cache exactly in the case named by Introduces, a condition on the frame and the routing |
| ArpFrames.UnicastForeignFrameAddsNothing | 3rdparty/freertos_tcp/src/FreeRTOS_ARP.c:285-346 | a frame from a unicast sender never does |
| ArpFrames.BroadcastAddressIsAdded | 3rdparty/freertos_tcp/src/FreeRTOS_ARP.c:285-346 | one whose sender is the broadcast address of the own subnet does |
| ArpFrames.ExampleBroadcastIsAdded | 3rdparty/freertos_tcp/src/FreeRTOS_ARP.c:285-346 | for example 192.168.1.255 for the end-point 192.168.1.2/24 |
| HttpRequest.HeaderEnd | src/uni_net_http_server.c:482-490 | the end of the first blank line, or none |
| HttpRequest.HeaderEndStable | src/uni_net_http_server.c:482-502 | where the head ends does not depend on how many bytes after it have arrived, and no proper prefix of the head has an end |
| HttpRequest.ParsedIffCommandKnown | src/uni_net_http_server.c:506-539 | a complete head is parsed exactly if its method is known; the branch for a URL without end is never taken |
| HttpRequest.ContentLengthOfHead | src/uni_net_http_server.c:523-591 | the length used is the last one with digits among all header lines, or among all but the first when the NUL after the URL erases the CRLF of the request line |
| HttpRequest.ShortRequestLosesFirstLine | src/uni_net_http_server.c:523-591 | for every request line without a version, the Content-Length used is the last one after the first header line, which is not read |
| HttpRequest.OnlyLineIsLost | src/uni_net_http_server.c:523-591 | with one header line and no version, nothing is announced, whatever the line says |
| HttpRequest.LostLengthExample | src/uni_net_http_server.c:523-591 | such a POST of a concrete head, whose only header line announces five bytes |
| HttpRequest.WellFormedHead | src/uni_net_http_server.c:523-591 | when the URL ends inside the request line, URL and last Content-Length are read back |
| HttpRequest.WellFormedRequest | src/uni_net_http_server.c:506-591 | a request in the common form, with any method of the table, is read back: method, URL and length |
| HttpLength.LineValueIff | src/uni_net_http_server.c:562-590 | a header line gives a length if and only if it is the field name in any case, blanks, a number in decimal, and no further digit; and the length is that number modulo 2^32 |
| HttpLength.LastIsRead | src/uni_net_http_server.c:551-591 | the length used is the number that the last such line spells |
| HttpLength.JoinedEnds | src/uni_net_http_server.c:482-490 | a request line and header lines, each ended by CRLF, with a blank line behind them are a complete head, and no shorter one |
| HttpLength.SpelledHeadIsRead | src/uni_net_http_server.c:505-591 | a head written out line by line is read back whole: method, URL, and the number its last length line spells |
| HttpBuffer.FindHeaderEnd | src/uni_net_http_server.c:482-490 | the loop over the buffer finds the end of the head |
| HttpBuffer.MatchCommand | src/uni_net_http_server.c:506-515 | the loop over the method table finds the first method that starts the buffer |
| HttpBuffer.TerminateUrl | src/uni_net_http_server.c:523-533 | the URL end is overwritten with NUL and nothing else changes |
| HttpBuffer.ReadDigits | src/uni_net_http_server.c:577-583 | the decimal value modulo 2^32 of the longest run of digits (HttpLength.LineValueIff says which number that is) |
| HttpBuffer.ScanLine | src/uni_net_http_server.c:557-590 | the value of one header line, if its name matches without regard to case and it has a digit |
| HttpBuffer.ScanContentLength | src/uni_net_http_server.c:541-591 | the in-place scan yields the value of the last such line, or none if there is none |
| HttpBuffer.ParseInPlace | src/uni_net_http_server.c:504-591 | the request read in place is the one the head spells, and the bytes after the head are untouched |
| HttpServer.WorkKeepsConsistent | src/uni_net_http_server.c:462-626 | no pass leaves anything of a finished request behind, and counters stay within their lengths |
| HttpServer.RunKeepsConsistent | src/uni_net_http_server.c:462-626 | so in every run |
| HttpDelivery.PostNeverCorrupted | src/uni_net_http_server.c:341-418 | for every split of the bytes: until the answer is given, what the handler got is a prefix of the body, also when a lost connection or a receive error, and nothing else, has broken it off; the answer comes after exactly the body, once, and of what follows exactly the excess of the receive that completed the head is lost |
| HttpDelivery.PostIsAnswered | src/uni_net_http_server.c:341-418 | as long as data keeps coming the answer is given, after at most one pass per byte of head and body and one more |
| HttpDelivery.WellFormedPostIsValid | src/uni_net_http_server.c:462-626 | every POST in the common form whose head fits the buffer, and whose last length line spells the length of the body in decimal, is covered by these two |
| HttpDelivery.SpelledPostIsValid | src/uni_net_http_server.c:462-626 | so is every one written out line by line |
| HttpDelivery.PlainPostIsValid | src/uni_net_http_server.c:462-626 | so is the one with the single line that a client would write |
| HttpDelivery.FollowingBytesKeptIff | src/uni_net_http_server.c:593-618 | after the answer, the bytes that follow the body are all there exactly if the receive that completed the head returned no more than head and body, or nothing follows |
| HttpDelivery.PipelinedBytesAreDropped | src/uni_net_http_server.c:593-618 | of a stream that one receive takes whole nothing is left |
| HttpStream.HeadStep | src/uni_net_http_server.c:467-502 | one pass while the head is incomplete: what the receive returns is kept, and exactly a complete head is dispatched, with what came after it |
| HttpFiles.SendLoopSends | src/uni_net_http_server.c:220-236 | one call of the send loop sends consecutive bytes of the file from its offset on |
| HttpFiles.PortionIsLargest | src/uni_net_http_server.c:220-236 | each piece is as large as the space, the rest of the file and the buffer allow |
| HttpFiles.FailedSendCloses | src/uni_net_http_server.c:212-247 | a pass over a file ends the connection exactly if its header or one of the sends it makes fails |
| HttpFiles.FileRequested | src/uni_net_http_server.c:284-325 | the dispatch of a complete GET head for a registered file sends one header with the size of the file and starts on its bytes |
| HttpFiles.FileNeverCorrupted | src/uni_net_http_server.c:212-333 | from the byte stream on, for every split of the request and all values of the transmit space: the request is being read, or one header and a prefix of the file, in the end all of it, have been handed to send; only a failure closes the connection |
| HttpFiles.FileIsSent | src/uni_net_http_server.c:212-333 | with data and some space in each pass and no failure, the whole file is out after at most one pass per byte of head and file |
| HttpFiles.WellFormedGetIsValid | src/uni_net_http_server.c:462-626 | every GET in the common form for a registered file that no handler hides, with a head that fits the buffer, is covered by these two |
| HttpFiles.FollowingBytesKeptIff | src/uni_net_http_server.c:593-618 | after the file, the bytes that follow the head are all there exactly if the receive that completed the head returned no more than it, or nothing follows |
| HttpReplies.HandlerIsFound | src/uni_net_http_server.c:382-391 | the handler found is the first one registered for the method and the path |
| HttpReplies.NoHandlerIff | src/uni_net_http_server.c:382-391 | none is found if and only if none is registered |
| HttpReplies.FileIsFound | src/uni_net_http_server.c:305-316 | the file found is the first one registered for the path |
| HttpReplies.NoFileIff | src/uni_net_http_server.c:305-316 | none is found if and only if none is registered |
| HttpReplies.GetAsksHandler | src/uni_net_http_server.c:251-325 | a GET for a registered handler, for every cut of the request: the first one is asked once, and the smaller one of its answer and the transmit space is announced and sent; a negative answer or a failed send ends the connection |
| HttpReplies.PostAnswerIsSent | src/uni_net_http_server.c:341-372 | the same for the step that ends a POST, after exactly its body |
| HttpReplies.RefusalIsSent | src/uni_net_http_server.c:284-626 | a refused request gets one header with status 400, 404 or 500, by exact conditions on the head and on what is registered, and no body; a bad one ends the connection |
| HttpReplies.OthersAreIgnored | src/uni_net_http_server.c:424-431 | a request with any other method is read and gets no answer |
| HttpReplies.LongHeadIsRefused | src/uni_net_http_server.c:493-502 | a head that does not end within the buffer is refused with status 400 when the buffer is full, and reading goes on behind it |
| HttpSessions.AllAreServed | src/uni_net_http_server.c:462-626 | for every list of valid POST and GET requests on one connection: if data keeps coming, nothing fails and no receive returns bytes of two requests, all are served, in order and each with exactly its own body or file, within the sum of their passes; the connection is then open with exactly what follows still to be read |
| HttpConnection.Client.constructor | src/uni_net_http_server.c:446-459 | a new client is between requests |
| HttpConnection.Client.ClientClear | src/uni_net_http_server.c:194-204 | the client is between requests again |
| HttpConnection.Client.SendHeader | src/uni_net_http_server.c:153-192 | one header is sent and noted |
| HttpConnection.Client.SendResponse | src/uni_net_http_server.c:251-282 | one call of the handler, and its answer |
| HttpConnection.Client.SendFileLoop | src/uni_net_http_server.c:220-236 | the loop sends what the specification sends and stops on size minus offset |
| HttpConnection.Client.SendFile | src/uni_net_http_server.c:212-249 | header once, portion of the file, clear at the end |
| HttpConnection.Client.LookUpHandler | src/uni_net_http_server.c:291-299 | the first handler with method and path |
| HttpConnection.Client.LookUpFile | src/uni_net_http_server.c:304-312 | the first file with the path |
| HttpConnection.Client.GetStart | src/uni_net_http_server.c:284-325 | the state after the start of a GET |
| HttpConnection.Client.PostNext | src/uni_net_http_server.c:341-375 | the state after a further portion of a POST body, or its answer |
| HttpConnection.Client.PostStart | src/uni_net_http_server.c:378-418 | the state after the start of a POST |
| HttpConnection.Client.DispatchHead | src/uni_net_http_server.c:593-618 | the state after a complete head |
| HttpConnection.Client.AccumulateHead | src/uni_net_http_server.c:467-502 | the state after more bytes of a head |
| HttpConnection.Client.ClientWork | src/uni_net_http_server.c:462-626 | one pass is one step of the specification, and keeps the client consistent |
| BitCursor.U16RoundTrip | 3rdparty/freertos_tcp/src/FreeRTOS_BitConfig.c:195-208 | writing and reading 16 bits are inverse, both ways |
| BitCursor.U32RoundTrip | 3rdparty/freertos_tcp/src/FreeRTOS_BitConfig.c:218-233 | reading gives back 32 bits written |
| BitCursor.U32RoundTripBytes | 3rdparty/freertos_tcp/src/FreeRTOS_BitConfig.c:316-328 | writing gives back 4 bytes read |
| BitCursor.WriteThenNext | 3rdparty/freertos_tcp/src/FreeRTOS_BitConfig.c:246-265 | bytes written are the next ones to read from where the write began |
| BitCursor.WriteGuardIff | 3rdparty/freertos_tcp/src/FreeRTOS_BitConfig.c:253-259 | the unsigned guard of a write lets exactly those writes pass that fit, and those longer than the whole buffer |
| BitCursor.BitConfig.constructor | 3rdparty/freertos_tcp/src/FreeRTOS_BitConfig.c:57-87 | a buffer with a copy of the given bytes, index 0, no error |
| BitCursor.BitConfig.ReadUc | 3rdparty/freertos_tcp/src/FreeRTOS_BitConfig.c:99-129 | reads in place: the bytes and the new index, or the sticky error |
| BitCursor.BitConfig.PeekLastIndexUc | 3rdparty/freertos_tcp/src/FreeRTOS_BitConfig.c:141-164 | the last bytes before the index, or the sticky error |
| BitCursor.BitConfig.ReadU8 | 3rdparty/freertos_tcp/src/FreeRTOS_BitConfig.c:173-185 | the next byte, or 0xFF and the error |
| BitCursor.BitConfig.ReadU16 | 3rdparty/freertos_tcp/src/FreeRTOS_BitConfig.c:195-208 | the next 16 bits in network order, or 0xFFFF and the error |
| BitCursor.BitConfig.ReadU32 | 3rdparty/freertos_tcp/src/FreeRTOS_BitConfig.c:218-233 | the next 32 bits in network order, or 0xFFFFFFFF and the error |
| BitCursor.BitConfig.WriteUc | 3rdparty/freertos_tcp/src/FreeRTOS_BitConfig.c:246-265 | writes in place and moves the index, or sets the error and leaves the contents |
| BitCursor.BitConfig.WriteU8 | 3rdparty/freertos_tcp/src/FreeRTOS_BitConfig.c:277-283 | the same for one byte |
| BitCursor.BitConfig.WriteU16 | 3rdparty/freertos_tcp/src/FreeRTOS_BitConfig.c:295-304 | the same for 16 bits |
| BitCursor.BitConfig.WriteU32 | 3rdparty/freertos_tcp/src/FreeRTOS_BitConfig.c:316-328 | the same for 32 bits |
| Dhcpv6Parser.OptionOnward | 3rdparty/freertos_tcp/src/FreeRTOS_DHCPv6.c:1233-1408 | for all bytes, handling an option never moves the index before the option body, so the option loop always advances |
| Dhcpv6Parser.SubOptionsOnward | 3rdparty/freertos_tcp/src/FreeRTOS_DHCPv6.c:1119-1221 | the same for the sub-options of an identity association |
| Dhcpv6SubLoop.RoundIsStep | 3rdparty/freertos_tcp/src/FreeRTOS_DHCPv6.c:1148-1218 | without a read error, one round of the sub-option loop goes on exactly if the bytes alone give a next position, and goes there |
| Dhcpv6SubLoop.LoopsForEverIff | 3rdparty/freertos_tcp/src/FreeRTOS_DHCPv6.c:1148-1218 | for every message of less than 65535 bytes and every position without a read error: the loop never ends if and only if its walk over the bytes comes back to a position within one step more than there are bytes |
| Dhcpv6SubLoop.EndsInTime | 3rdparty/freertos_tcp/src/FreeRTOS_DHCPv6.c:1148-1218 | after one round more than there are bytes the loop has ended, unless its walk comes back; so no larger bound tells more |
| Dhcpv6SubLoop.LoopsForEver | 3rdparty/freertos_tcp/src/FreeRTOS_DHCPv6.c:1148-1218 | in particular it never ends at a sub-option that leads to itself |
| Dhcpv6SubLoop.LoopingExample | 3rdparty/freertos_tcp/src/FreeRTOS_DHCPv6.c:1119-1221 | a concrete option of 28 bytes on which it does not end |
| Dhcpv6SubLoop.CyclingExample | 3rdparty/freertos_tcp/src/FreeRTOS_DHCPv6.c:1148-1218 | a concrete option of 56 bytes on which it goes round two sub-options, neither of which leads to itself |
| Dhcpv6SubLoop.SubLoopEnds | 3rdparty/freertos_tcp/src/FreeRTOS_DHCPv6.c:1148-1218 | it ends, within one round more than there are bytes left, if every unknown sub-option that it reaches leads forward |
| Dhcpv6SubLoop.AnalysisRoundsDoNotMatter | 3rdparty/freertos_tcp/src/FreeRTOS_DHCPv6.c:1421-1559 | the verdict on a datagram is the same for all bounds above its length; the analysis returns under some bound or under none |
| Dhcpv6Codec.OptionRead | 3rdparty/freertos_tcp/src/FreeRTOS_DHCPv6.c:1233-1408 | each encodable option is read back by its handler: accepted exactly if acceptable, with its fields, the cursor exactly behind it |
| Dhcpv6Codec.OptionLoopReads | 3rdparty/freertos_tcp/src/FreeRTOS_DHCPv6.c:1489-1516 | a list of encoded options is read back one by one |
| Dhcpv6Codec.AnalyseEncoded | 3rdparty/freertos_tcp/src/FreeRTOS_DHCPv6.c:1421-1559 | the round trip: every encodable reply, with too short options and sub-options among them, is analysed, passes exactly if acceptable, and then the message holds its fields, the DNS list is cut to capacity and the cursor is at the end without error |
| Dhcpv6Codec.CutShortNeverPasses | 3rdparty/freertos_tcp/src/FreeRTOS_DHCPv6.c:1489-1516 | a reply whose last option is cut short never passes, whatever comes before it |
| Dhcpv6Codec.LengthIsEnough | 3rdparty/freertos_tcp/src/FreeRTOS_DHCPv6.c:1119-1221 | for a reply that can be encoded, its length is always enough as the bound on the rounds |
| Dhcpv6Analysis.Analyser.constructor | 3rdparty/freertos_tcp/src/FreeRTOS_DHCPv6.c:1421-1453 | the analysis starts at the first byte with an empty message |
| Dhcpv6Analysis.Analyser.HandleStatusCode | 3rdparty/freertos_tcp/src/FreeRTOS_DHCPv6.c:256-292 | the status option read in place; success exactly for code 0 |
| Dhcpv6Analysis.Analyser.HandleSubOption | 3rdparty/freertos_tcp/src/FreeRTOS_DHCPv6.c:1148-1208 | one sub-option read in place |
| Dhcpv6Analysis.Analyser.SubOption | 3rdparty/freertos_tcp/src/FreeRTOS_DHCPv6.c:1119-1221 | all sub-options read in place |
| Dhcpv6Analysis.Analyser.HandleClientId | 3rdparty/freertos_tcp/src/FreeRTOS_DHCPv6.c:1265-1311 | the client identifier is compared with the own one |
| Dhcpv6Analysis.Analyser.HandleDuid | 3rdparty/freertos_tcp/src/FreeRTOS_DHCPv6.c:1313-1344 | a server identifier is stored unless it is too short or too long |
| Dhcpv6Analysis.Analyser.HandleDns | 3rdparty/freertos_tcp/src/FreeRTOS_DHCPv6.c:1353-1383 | the DNS addresses that fit are stored and the others skipped |
| Dhcpv6Analysis.Analyser.HandleOption | 3rdparty/freertos_tcp/src/FreeRTOS_DHCPv6.c:1233-1408 | one option read in place |
| Dhcpv6Analysis.Analyser.HandleOptions | 3rdparty/freertos_tcp/src/FreeRTOS_DHCPv6.c:1489-1516 | the option loop in place |
| Dhcpv6Analysis.Analyser.Run | 3rdparty/freertos_tcp/src/FreeRTOS_DHCPv6.c:1421-1559 | the whole analysis in place gives the verdict, the message and the cursor of the specification |
| Dhcpv6Client.BuiltMessageFits | 3rdparty/freertos_tcp/src/FreeRTOS_DHCPv6.c:992-1098 | for every usable server identifier the message has a known length of at most 256 bytes |
| Dhcpv6Client.BuildMessage | 3rdparty/freertos_tcp/src/FreeRTOS_DHCPv6.c:992-1098 | the message written field by field into the fixed buffer is the specified one and reads back as MessageIsRead says, the client identifier handed out is the one in it, and the error flag is not set |
| Dhcpv6Client.MessageIsRead | 3rdparty/freertos_tcp/src/FreeRTOS_DHCPv6.c:992-1098 | read byte by byte: type 1 or 3, the transaction, and exactly these options in order: client identifier (1), server identifier (2) if there is one, wanted options (6) in a request, elapsed time (8), prefix delegation (25) with one prefix (26), address (3), and an empty server list (23) in a request, each with its exact bytes |
| Dhcpv6Client.PrefixIsReadBack | 3rdparty/freertos_tcp/src/FreeRTOS_DHCPv6.c:1067-1071 | the client's own reader gives back the lifetimes 4500 and 7200, the prefix length and the prefix |
| Dhcpv6Wire.TagsOfWire | 3rdparty/freertos_tcp/src/FreeRTOS_DHCPv6.c:1489-1516 | a reader that knows only codes, lengths and bodies gives back every list of options |
| Dhcpv6Client.OnlyWaitingStores | 3rdparty/freertos_tcp/src/FreeRTOS_DHCPv6.c:302-368 | a message is stored only with the first end-point that waits for its transaction, and only if it passes the analysis |
| Dhcpv6Client.KnownServerStays | 3rdparty/freertos_tcp/src/FreeRTOS_DHCPv6.c:329-357 | in every run, a server once known to an end-point keeps its type, length and identifier |
| Dhcpv6Client.PassedServerIsUsable | 3rdparty/freertos_tcp/src/FreeRTOS_DHCPv6.c:1313-1344 | no byte string whatever passes analysis with a server identifier of more than 128 bytes |
| Dhcpv6Client.RunKeepsUsable | 3rdparty/freertos_tcp/src/FreeRTOS_DHCPv6.c:302-368 | in every run of received messages the server identifier of each end-point stays usable |
| Dhcpv6Client.EveryMessageFits | 3rdparty/freertos_tcp/src/FreeRTOS_DHCPv6.c:352-357 | hence in every run every message an end-point builds fits its buffer |
| SharedSocket.CloseKeepsBalanced | 3rdparty/freertos_tcp/src/FreeRTOS_DHCP.c:852-882 | closing keeps the balance: the count is the number of holders, all hold the one open socket, there is one exactly if the count is not zero, every socket opened is open or was closed once |
| SharedSocket.CreateKeepsBalanced | 3rdparty/freertos_tcp/src/FreeRTOS_DHCP.c:889-950 | so does opening, also when the socket or the port is refused; nobody else is affected |
| SharedSocket.HolderIsCounted | 3rdparty/freertos_tcp/src/FreeRTOS_DHCP.c:872-875 | the branch for a socket without users is unreachable |
| SharedSocket.EveryRunIsBalanced | 3rdparty/freertos_tcp/src/FreeRTOS_DHCP.c:852-950 | any number of end-points may start and stop in any order |
| SharedSocket.Pool.constructor | 3rdparty/freertos_tcp/src/FreeRTOS_DHCP.c:65-84 | no socket, no users |
| SharedSocket.Pool.CloseSocket | 3rdparty/freertos_tcp/src/FreeRTOS_DHCP.c:852-882 | closes in place as specified and keeps the balance; the dead branch is proved dead |
| SharedSocket.Pool.CreateSocket | 3rdparty/freertos_tcp/src/FreeRTOS_DHCP.c:889-950 | opens in place as specified and keeps the balance |
| SharedSocket.Pool.CreateSocketV6 | 3rdparty/freertos_tcp/src/FreeRTOS_DHCPv6.c:881-921 | the DHCPv6 variant does the same for a socket that is granted |
| Dhcpv4Options.ItemsAt | 3rdparty/freertos_tcp/src/FreeRTOS_DHCP.c:1193-1265 | the declarative reading of options by index: end marker, padding, missing length, cut-off value, option without value |
| Dhcpv4Options.ItemsOfEncoded | 3rdparty/freertos_tcp/src/FreeRTOS_DHCP.c:1193-1265 | every list of options with values is read back from its encoding, whatever follows the end marker |
| Dhcpv4Options.PadAndEnd | 3rdparty/freertos_tcp/src/FreeRTOS_DHCP.c:1193-1220 | a zero byte between options is stepped over, and 255 ends them |
| Dhcpv4Options.PassesExactly | 3rdparty/freertos_tcp/src/FreeRTOS_DHCP.c:993-1149 | for every list of options: processing passes exactly if the right types and the right servers before the first unexpected type are at least two in number |
| Dhcpv4Options.PassesWronglyIff | 3rdparty/freertos_tcp/src/FreeRTOS_DHCP.c:993-1149 | that agrees with "a right type and a right server are there" except exactly when there are two right servers and no right type, or two right types and no right server |
| Dhcpv4Options.RepeatedServerPasses | 3rdparty/freertos_tcp/src/FreeRTOS_DHCP.c:1100-1120 | an instance: a repeated server identifier passes alone |
| Dhcpv4Options.RepeatedTypePasses | 3rdparty/freertos_tcp/src/FreeRTOS_DHCP.c:1001-1029 | an instance: a repeated message type passes as an acknowledgement that names no server |
| Dhcpv4Options.PassesIff | 3rdparty/freertos_tcp/src/FreeRTOS_DHCP.c:993-1149 | hence, for options that occur at most once, processing passes exactly if the expected message type and an acceptable server identifier are among the options read |
| Dhcpv4Options.NamedIff | 3rdparty/freertos_tcp/src/FreeRTOS_DHCP.c:1100-1120 | an acceptable server identifier is one that names the stored server, or any in an offer |
| Dhcpv4Options.OfferNamesServer | 3rdparty/freertos_tcp/src/FreeRTOS_DHCP.c:1100-1109 | an offer stores the server it names |
| Dhcpv4Options.AckKeepsServer | 3rdparty/freertos_tcp/src/FreeRTOS_DHCP.c:1110-1120 | an acknowledgement never changes the stored server |
| Dhcpv4Options.Walker.constructor | 3rdparty/freertos_tcp/src/FreeRTOS_DHCP.c:1324-1331 | nothing processed, index 0 |
| Dhcpv4Options.Walker.CheckOption | 3rdparty/freertos_tcp/src/FreeRTOS_DHCP.c:1193-1265 | says handle, skip or stop as the declarative reading does, and stays inside the payload |
| Dhcpv4Options.Walker.ReadDns | 3rdparty/freertos_tcp/src/FreeRTOS_DHCP.c:1052-1098 | the addresses that name a host among the first that fit, then zeros |
| Dhcpv4Options.Walker.HandleOption | 3rdparty/freertos_tcp/src/FreeRTOS_DHCP.c:993-1149 | the effect of one option on the terms and the count (Dhcpv4Terms.ApplyIs says what it is, by code) |
| Dhcpv4Options.Walker.Walk | 3rdparty/freertos_tcp/src/FreeRTOS_DHCP.c:1333-1354 | the walk ends on every byte string and has the effect of processing the options read |
| Dhcpv4Options.Walker.WalkOn | 3rdparty/freertos_tcp/src/FreeRTOS_DHCP.c:1333-1354 | one turn of the walk is over, or goes on strictly further with the same result |
| Dhcpv4Terms.ApplyIs | 3rdparty/freertos_tcp/src/FreeRTOS_DHCP.c:1030-1140 | option 1 sets the mask, 3 the gateway, 6 the DNS servers, 51 the lease time, each exactly if its length fits, and nothing else |
| Dhcpv4Terms.TermsFollow | 3rdparty/freertos_tcp/src/FreeRTOS_DHCP.c:1277-1380 | after any list of options: mask, gateway, DNS servers and lease time are those that the last usable option of each code carries, and unchanged where there is none |
| Dhcpv4Terms.EncodedTermsFollow | 3rdparty/freertos_tcp/src/FreeRTOS_DHCP.c:1277-1380 | the same from the bytes of an encoded list |
| Dhcpv4Terms.DnsListIs | 3rdparty/freertos_tcp/src/FreeRTOS_DHCP.c:1052-1098 | the DNS servers are, in order, exactly the addresses that name a host among the first that fit, then zeros |
| Dhcpv4Terms.RenewalIsHalf | 3rdparty/freertos_tcp/src/FreeRTOS_DHCP.c:1126-1137 | the renewal time is half the lease in clock ticks, to within half a second, modulo 2^32; exactly so for every lease that does not overflow |
| Dhcpv4Machine.OrNotBit | 3rdparty/freertos_tcp/src/FreeRTOS_DHCP.c:525-527 | bit by bit, the broadcast address is the address or not the mask |
| Dhcpv4Lease.RunKeepsValid | 3rdparty/freertos_tcp/src/FreeRTOS_DHCP.c:688-950 | in every run of the machine the count of the shared socket is right |
| Dhcpv4Lease.LeaseOnlyByAck | 3rdparty/freertos_tcp/src/FreeRTOS_DHCP.c:477-560 | an end-point becomes leased only in a step that consumed a valid acknowledgement with its transaction id and MAC and enough right options, for options that occur at most once one naming its server; its address is that message's yiaddr |
| Dhcpv4Lease.ValidAddressIsUsable | 3rdparty/freertos_tcp/src/FreeRTOS_DHCP.c:1161-1182 | an address that passes the checks does not end in 255 nor start with 127 |
| Dhcpv4Lease.OthersUntouched | 3rdparty/freertos_tcp/src/FreeRTOS_DHCP.c:688-844 | a step of one end-point changes no other |
| Dhcpv4Lease.StaysLeased | 3rdparty/freertos_tcp/src/FreeRTOS_DHCP.c:635-676 | while it stays leased an end-point keeps its address and mask |
| Dhcpv4Lease.RunKeepsSound | 3rdparty/freertos_tcp/src/FreeRTOS_DHCP.c:477-676 | every run keeps: a leased address is usable and its broadcast address fits the mask, and the stored server is the one named by the last accepted offer |
| Dhcpv4Lease.LeaseIsGranted | 3rdparty/freertos_tcp/src/FreeRTOS_DHCP.c:262-560 | the main result for every run from the initial state: a lease comes from an acknowledgement for the end-point by the server whose offer it accepted last |
| Dhcpv4Lease.OfferAndAckLease | 3rdparty/freertos_tcp/src/FreeRTOS_DHCP.c:336-560 | conversely an end-point that waits for an offer, gets one it may accept, can send its request and then, whatever other end-points do meanwhile, gets the acknowledgement of the server that the offer named, is leased the acknowledged address, with the mask, gateway, DNS servers and lease time of the acknowledgement, or of the offer where it is silent, and with the broadcast address of that address and that mask, bit by bit |
| Dhcpv4Reply.LayoutIsRead | 3rdparty/freertos_tcp/src/FreeRTOS_DHCP.c:1161-1183 | every field of a reply in the layout of section 2 of RFC 2131 is read back, and it is valid exactly if its address may be used |
| Dhcpv4Reply.RepliesLease | 3rdparty/freertos_tcp/src/FreeRTOS_DHCP.c:336-560 | the same from datagrams in that layout, with message types 2 and 5 |
| Dhcpv4Course.StartSendsDiscover | 3rdparty/freertos_tcp/src/FreeRTOS_DHCP.c:568-632 | a client that can work takes a share of the socket and a new transaction, sends one discover, and waits for an offer |
| Dhcpv4Course.RenewalAsksAgain | 3rdparty/freertos_tcp/src/FreeRTOS_DHCP.c:635-672 | when the lease is to be renewed, the same server is asked for the same address in a new transaction |
| Dhcpv4Course.RenewedByAck | 3rdparty/freertos_tcp/src/FreeRTOS_DHCP.c:477-560 | and its acknowledgement renews the lease, on its terms |
| Dhcpv4Course.RefusalStartsOver | 3rdparty/freertos_tcp/src/FreeRTOS_DHCP.c:1001-1024 | a refusal (type 6) addressed to an end-point that waits for its acknowledgement makes it start over |
| Dhcpv4Course.DeclinedIsGivenUp | 3rdparty/freertos_tcp/src/FreeRTOS_DHCP.c:568-632 | an application that declines gets its defaults, nothing is sent, and the share of the socket is returned |
| Dhcpv4Course.StartsOverIff | 3rdparty/freertos_tcp/src/FreeRTOS_DHCP.c:477-516 | waiting for an acknowledgement that never comes: each time-out repeats the request and doubles the period, and the client starts over if and only if a doubling exceeds the maximum |
| Dhcpv4BackOff.BackingInEveryRun | 3rdparty/freertos_tcp/src/FreeRTOS_DHCP.c:397-459 | with working sends and no replies: state, period, number of discovers and share of the socket after any events, also of other end-points |
| Dhcpv4BackOff.GivesUpIff | 3rdparty/freertos_tcp/src/FreeRTOS_DHCP.c:397-459 | the end-point gives up exactly if some doubling of the period as a 32-bit number exceeds the maximum, and then after that many events |
| Dhcpv4BackOff.DoublingsIsLog | 3rdparty/freertos_tcp/src/FreeRTOS_DHCP.c:397-459 | the number of doublings is the logarithm, rounded down, of maximum over initial period |
| Dhcpv4BackOff.BackOffEnds | 3rdparty/freertos_tcp/src/FreeRTOS_DHCP.c:397-459 | for periods below half the range: the period is the initial one times a power of two, at most 1 + log2(max/initial) discovers are sent, and then the default address is used and the share of the socket is returned |
| Dhcpv4BackOff.WrappingNeverGivesUp | 3rdparty/freertos_tcp/src/FreeRTOS_DHCP.c:402-405 | with a larger maximum and a power of two as initial period it never gives up |
| Dhcpv4Client.Client.constructor | 3rdparty/freertos_tcp/src/FreeRTOS_DHCP.c:65-84 | no end-point holds a socket |
| Dhcpv4Client.Client.ProcessReplies | 3rdparty/freertos_tcp/src/FreeRTOS_DHCP.c:1277-1377 | the end-point after a datagram, and whether it passed: all checks of header, transaction id, MAC and options |
| Dhcpv4Client.Client.SendDiscover | 3rdparty/freertos_tcp/src/FreeRTOS_DHCP.c:1589-1663 | a discover goes out exactly if there is a socket and the send succeeds |
| Dhcpv4Client.Client.SendDhcpRequest | 3rdparty/freertos_tcp/src/FreeRTOS_DHCP.c:1514-1578 | a request names the offered address and the server |
| Dhcpv4Client.Client.TakeOffer | 3rdparty/freertos_tcp/src/FreeRTOS_DHCP.c:352-396 | the end-point after an offer, and whether it gives up |
| Dhcpv4Client.Client.HandleWaitingOffer | 3rdparty/freertos_tcp/src/FreeRTOS_DHCP.c:336-466 | the end-point after an offer or a time-out, and whether it gives up |
| Dhcpv4Client.Client.HandleWaitingAcknowledge | 3rdparty/freertos_tcp/src/FreeRTOS_DHCP.c:477-560 | the end-point, the socket and the messages after an acknowledgement or a time-out |
| Dhcpv4Client.Client.HandleWaitingFirstDiscover | 3rdparty/freertos_tcp/src/FreeRTOS_DHCP.c:568-627 | the end-point after its first discover, and whether it gives up |
| Dhcpv4Client.Client.HandleLeasedAddress | 3rdparty/freertos_tcp/src/FreeRTOS_DHCP.c:635-676 | the renewal of a lease |
| Dhcpv4Client.Client.Initialise | 3rdparty/freertos_tcp/src/FreeRTOS_DHCP.c:959-982 | the start of a transaction |
| Dhcpv4Client.Client.GiveUp | 3rdparty/freertos_tcp/src/FreeRTOS_DHCP.c:818-842 | default address, final state, share of the socket returned |
| Dhcpv4Client.Client.HandleWaiting | 3rdparty/freertos_tcp/src/FreeRTOS_DHCP.c:735-770 | dispatch on the waiting states |
| Dhcpv4Client.Client.Handle | 3rdparty/freertos_tcp/src/FreeRTOS_DHCP.c:728-842 | dispatch on all states |
| Dhcpv4Client.Client.CycleEndPoint | 3rdparty/freertos_tcp/src/FreeRTOS_DHCP.c:688-844 | one cycle in place is one step of the specification, and keeps the socket count right |
| Dhcpv4Client.Client.DhcpStop | 3rdparty/freertos_tcp/src/FreeRTOS_DHCP.c:319-326 | the share of the socket is returned |
| Dhcpv4Client.Client.FindTarget | 3rdparty/freertos_tcp/src/FreeRTOS_DHCP.c:244-259 | the first end-point with the transaction id of a reply |
| Dhcpv4Client.Client.DhcpProcess | 3rdparty/freertos_tcp/src/FreeRTOS_DHCP.c:183-312 | the whole receive loop is a run of the specification, in which each datagram goes to an end-point that expects it and is not leased |
| UdpReceive.PacketsAreDeliveredOrNot | src/uni_net_udp_server.c:195-213 | packets are callbacks plus undelivered ones |
| UdpReceive.Receiver.constructor | src/uni_net_udp_server.c:328-335 | nothing received, nothing counted |
| UdpReceive.Receiver.ReceiveBatch | src/uni_net_udp_server.c:152-193 | the batch holds the packets in arrival order, and ends only when it is full or a call takes nothing; the payload of that call is released and its error counted; the first call of a batch blocks exactly if it is to wait |
| UdpReceive.Receiver.Dispatch | src/uni_net_udp_server.c:200-210 | one packet: callback or drop, then release |
| UdpReceive.Receiver.DispatchBatch | src/uni_net_udp_server.c:195-213 | all packets of the batch in order, and the counters |
| UdpReceive.Receiver.Burst | src/uni_net_udp_server.c:284-317 | one blocking receive exactly if the burst begins, at most the budget of packets, and it ends only because of a stop, a used-up budget or a call that takes nothing; afterwards all books are right |
| UdpReceive.Receiver.ReceiveLoop | src/uni_net_udp_server.c:284-317 | bursts follow each other until a stop, each with at least one call; over any number of bursts and whatever the calls return: every payload is released exactly once and never shown after that, callbacks are the deliverable packets in arrival order, packets total is callbacks plus undelivered, drops total is undelivered plus receive errors, both modulo 2^64 |
| UdpLifecycle.StepKeepsInv | src/uni_net_udp_server.c:219-416 | every access of the task or the caller keeps: sockets and locks are accounted for and the context fits where both are |
| UdpLifecycle.EveryRunIsLegal | src/uni_net_udp_server.c:219-416 | for every interleaving: the task receives on open sockets only, closes and deletes only what exists, does not use the context once stop has returned; then every socket was closed once and every lock deleted once |
| UdpServe.ServerReceives | src/uni_net_udp_server.c:219-317 | a started server with a callback that nobody stops and whose steps succeed receives on an open socket after at most fourteen of its steps, however other events fall between them |
| UdpServe.StartedIsOnTheWay | src/uni_net_udp_server.c:328-373 | a start with a callback puts the server on that way |
| UdpServe.ReceivesAgain | src/uni_net_udp_server.c:284-317 | after every receive it takes one step to the next |
| UdpServe.WithoutCallbackIdles | src/uni_net_udp_server.c:266-271 | without a callback it idles until somebody asks it to stop, whatever else happens |
| UdpStop.SomeoneCanMove | src/uni_net_udp_server.c:380-416 | there is no deadlock: while a stop is under way the task or the caller can move |
| UdpStop.RoundBringsNearer | src/uni_net_udp_server.c:219-416 | any round in which both get a step brings a stop strictly nearer to its return |
| UdpStop.StopReturns | src/uni_net_udp_server.c:219-416 | from every state of every run, a stop returns within 29 rounds in which both tasks get a step, however interleaved |
| UdpRace.InitializedStays | src/uni_net_udp_server.c:219-416 | an initialized server stays so until stop clears the context |
| UdpRace.InitializedStopIsLegal | src/uni_net_udp_server.c:380-397 | stop on an initialized server takes and gives an existing lock and sets the time-out of an open socket |
| UdpRace.StopMissesLockIff | src/uni_net_udp_server.c:219-397 | in every state of every run: a stop called now can come to take or give a lock that does not exist exactly if the server is being set up and not initialized |
| UdpRace.StopMissesSocketIff | src/uni_net_udp_server.c:219-397 | in every state of every run: a stop called now can come to set the time-out of a socket that is not open exactly if the task has yet to make its socket or can still close it |
| UdpRace.RaceMissesLock | src/uni_net_udp_server.c:219-397 | a concrete run from the start in which it does |
| FtpStartup.LinesOfJoined | src/uni_net_ftp_client.c:455-473 | splitting gives back every list of lines |
| FtpStartup.CodeIsUnique | src/uni_net_ftp_client.c:427-432 | a three-digit code is read from exactly one three-character string |
| FtpStartup.LinesEffect | src/uni_net_ftp_client.c:235-386 | what the replies of a batch can do to the script: only a greeting restarts it, none sends a command |
| FtpStartup.EveryRunIsOnTrack | src/uni_net_ftp_client.c:510-525 | in every run the commands since the last greeting are consecutive up to the current index, and an idle client has sent all |
| FtpStartup.ScriptIsSentInOrder | src/uni_net_ftp_client.c:510-525 | the i-th command since the last greeting is command i, or i+1 if the greeting came with an answer; the client is idle only with the index at the length of the table and the rest of the script sent |
| FtpStartup.CommandsAreInTable | src/uni_net_ftp_client.c:510-525 | every command ever sent is in the table |
| FtpStartup.PhaseAfterLines | src/uni_net_ftp_client.c:235-386 | for a turn that the client survives: a greeting stands exactly if no reply with code 200, 202, 227, 230, 257 or 550 follows it |
| FtpStartup.RepliesByCode | src/uni_net_ftp_client.c:235-418 | 331 is answered with the password, 530 with the user name, 150 and 226 change nothing, 550 marks a failure, 227 without a data connection ends the client, whatever text follows |
| FtpStartup.OtherCodesClose | src/uni_net_ftp_client.c:400-441 | every code that is an error or has no handler ends the connection |
| FtpStartup.FailureStops | src/uni_net_ftp_client.c:510-525 | after a failed command nothing more is sent until another reply comes |
| FtpStartup.RepliesDriveScript | src/uni_net_ftp_client.c:510-525 | a greeted client whose commands are answered one by one comes to the end of the script, one command per reply |
| FtpStartup.WholeScriptIsSentIff | src/uni_net_ftp_client.c:256-273 | an idle client has sent the whole script exactly if it was greeted during start-up and no such reply followed the last greeting in its turn |
| FtpStartup.GreetingWithAnswerSkips | src/uni_net_ftp_client.c:256-273 | an instance in which the first command is missing |
| FtpClient.Client.constructor | src/uni_net_ftp_client.c:586-595 | start-up in progress, index 0, nothing written |
| FtpClient.Client.HandleCode | src/uni_net_ftp_client.c:400-441 | the table search and the handlers: the state after a reply code; what is written to the socket stays what the log says |
| FtpClient.Client.WorkSingle | src/uni_net_ftp_client.c:420-441 | one line: its code is cut off in place and handled; a malformed line ends the connection |
| FtpClient.FindLineEnd | src/uni_net_ftp_client.c:456-462 | the first CRLF before any NUL |
| FtpClient.Client.WorkLine | src/uni_net_ftp_client.c:455-471 | one turn of the split: the line is ended and handled in place, and the rest is handled as the whole would be |
| FtpClient.Client.WorkCmd | src/uni_net_ftp_client.c:443-480 | received bytes are split in place and handled line by line until the client terminates |
| FtpClient.Client.WorkState | src/uni_net_ftp_client.c:510-525 | the script advances, and the command is written to the socket exactly when the log says so; the index is inside the table whenever it is used |
| FtpClient.Client.Thread | src/uni_net_ftp_client.c:586-631 | the thread over any sequence of turns is a run of the specification, and what it has written to the socket is exactly what the log of that run says, in order |
| FtpClient.Client.SendLogin | src/uni_net_ftp_client.c:102-112 | a login line is cut to 63 characters |
| FtpSending.LoginLines | src/uni_net_ftp_client.c:102-112 | a login line is whole if the name has at most 56 characters, and otherwise its first 63 characters |
| FtpSending.ScriptIsWritten | src/uni_net_ftp_client.c:510-525 | in every run, what was written since the last greeting is the script in order, from its first command (or its second if the greeting came with an answer) to the current one, with nothing but login lines in between; all of it once idle |
| FtpSending.WholeScriptIsWrittenIff | src/uni_net_ftp_client.c:256-273 | an idle client that did not have to log in has written exactly the script since the last greeting if and only if no answer followed that greeting in its turn |

## Left out

- ArpFrames.ProcessPacket: the clash counter, the defence against a clash and the packet that waits for a resolution are left out.
- HttpConnection.Client.SendHeader: the text of the header is reduced to status and length.
- HttpConnection.Client.SendResponse: the bytes of the reply are reduced to their number.
- BitCursor.BitConfig.constructor: memory failure is left out.
- Dhcpv6Analysis.Analyser.SubOption: takes a bound on the rounds of its loop, which the source lacks; a bound above the length of the message changes no verdict (Dhcpv6SubLoop.AnalysisRoundsDoNotMatter). The same bound is passed through Dhcpv6Analysis.Analyser.HandleOption, HandleOptions and Run.
- Dhcpv4Client.Client.SendDiscover: the bytes of the message are left out.
- Dhcpv4Client.Client.SendDhcpRequest: the layout of the message is left out.
- Dhcpv6Codec.AnalyseEncoded: the sub-option loop takes a bound on its rounds, because the source's branch for an unknown sub-option moves the index by the total length minus the bytes used, which need not advance; encodable replies have known sub-options only, and for these the length of the reply is always enough (LengthIsEnough).
- Dhcpv4Options.PassesIff: assumes that message type and server identifier occur at most once, as section 4.1 of RFC 2131 requires of options; PassesExactly has no such assumption.
- Dhcpv4BackOff.BackOffEnds: assumes periods below half the range of the tick counter; GivesUpIff covers all periods.
- HttpConnection.Client.GetStart: asks for a client between requests, which its caller has by then.
- UdpStop.StopReturns: taking or giving a lock that does not exist, or setting the time-out of a socket that is not open, is modelled as having no effect, and a receive call as returning.
- UdpLifecycle.EveryRunIsLegal: the two tasks are modelled on values, one access per step; compiler or hardware reordering of plain fields is not modelled.
- UdpReceive.Receiver.ReceiveLoop: return values are taken after time-outs have been mapped to zero; the error numbers are not in this repository.
- ARP: packets waiting for a resolution, the clash counter and timers, and the sending of requests.
- ARP: which end-point the routing functions choose; they are parameters with any behaviour.
- HTTP: content types and status texts, the copy into the transmit buffer, socket sets, the list of clients, memory failures; a send takes all bytes it is given or fails; a POST handler is assumed to have a function.
- HTTP: receive errors while the head is read are ignored by the source and so by the model.
- DHCPv6: the lease state machine beyond the socket count and the store of server identifiers.
- DHCPv4: link-local fall-back addresses, timers, the host name option and the layout of outgoing messages; the checks on the offered address are those of a little-endian machine.
- DHCPv4: that the receive loop ends depends on which datagrams steps consume; each look at the socket is an input.
- DHCPv4: a random generator that fails leaves the transaction id as it was.
- UDP: a second start without a stop in between does nothing in the model; the source then clears the context of the running server and creates another task.
- UDP: receive and send calls by the application, socket options, task priorities; the queue size.
- FTP: the data phase, the parsing of the passive-mode address (its success is an input), results of sends, which the source ignores.
- BitCursor.BitConfig.WriteUc: asks for at most as many bytes as the buffer is long, and so do WriteU8, WriteU16 and WriteU32; the source subtracts the length from the size without sign, and WriteGuardIff says exactly what its guard then lets pass.
