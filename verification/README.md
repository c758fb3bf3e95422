# Network automation lab: verified model of its decision logic

This project models, in Dafny, the input-to-output logic of the network automation lab's tools. It covers:

- the Robot Framework client that talks JSON-RPC to a Go server (`GoNetworkLibrary._send_request` and its keyword façade);
- the Go server's request dispatch, connection-handle registry and output parsers;
- the device-OS classifiers and command selection of the two health-check versions and the lab logger;
- the echo-marker script and demultiplexing, with the output cleaners of all three programs;
- the migration toolkit's parsers (`pingRate`, `parseRoutes`, `countLines`, `sumPfx`, the VRF table and detail parsers) and its decisions (MTU binary search, overall verdict, BGP and drain monitors, device removal, single ping);
- the pre/post comparison (`parseCSV`, `extractMetrics`, `loadCSVData`, the `comparePhases` status rule) and `splitLines`.

SSH sessions, sockets, JSON encoding, UTF-8 decoding and user input are parameters: a `Codec` record of functions, a `Socket` of scripted step outcomes and receive events, an `Env` of dial and run outcomes, a `poll` function for monitor samples, and a `reply` function for ping outputs. Regular expressions are modelled as small token scanners (`Pattern`). Their leftmost-match meaning is proved separately (`Pattern.SearchMeaning`).

Modules: `Common` (Option/Result), `Text` (Go `strings`/`strconv` helpers), `Pattern` (regular expressions), `JsonValue`, `RpcClient`, `RpcServer`, `DeviceOs`, `Demux`, `SplitLines`, `Migration`, `MigrationOps`, `MigrationVrf`, `XrCleaner`, `Compare`.

## Model

| member | source | states |
|---|---|---|
| RpcClient.NewLibrary | migration-poc/robot-tests/GoNetworkLibrary.py:17-21 | the library defaults to localhost:8270 |
| RpcClient.Envelope | migration-poc/robot-tests/GoNetworkLibrary.py:25-35 | the request object has exactly the keys method, args and kwargs; args defaults to [] and kwargs to {} |
| RpcClient.RequestBytes | migration-poc/robot-tests/GoNetworkLibrary.py:43 | the bytes sent are the encoded envelope followed by exactly one newline |
| RpcClient.Receive | migration-poc/robot-tests/GoNetworkLibrary.py:46-57 | the receive loop as a method; its result equals the reference framing `Frame` |
| RpcClient.FrameShape | migration-poc/robot-tests/GoNetworkLibrary.py:46-57 | the buffer is the concatenation of the first k chunks; it stops at the first buffer that parses or at the first empty chunk |
| RpcClient.LaterEventsUnread | migration-poc/robot-tests/GoNetworkLibrary.py:46-57 | events after the one that ended the loop never change the result |
| RpcClient.Interpret | migration-poc/robot-tests/GoNetworkLibrary.py:64-68 | status PASS gives the return field (None when absent); any other status is a remote error |
| RpcClient.PayloadIsEnvelope | migration-poc/robot-tests/GoNetworkLibrary.py:42-43 | once connected, exactly the envelope bytes are handed to sendall |
| RpcClient.PassReturnsValue | migration-poc/robot-tests/GoNetworkLibrary.py:64-65 | a framed PASS reply returns its return field unchanged, or None |
| RpcClient.OtherStatusRaises | migration-poc/robot-tests/GoNetworkLibrary.py:66-73 | any other status raises "Connection error: Go server error: <error>" |
| RpcClient.UnknownErrorText | migration-poc/robot-tests/GoNetworkLibrary.py:67 | a missing error field reads 'Unknown error' |
| RpcClient.TimeoutMessage | migration-poc/robot-tests/GoNetworkLibrary.py:70-71 | a timeout before the reply is complete raises exactly "Timeout connecting to host:port", not wrapped again |
| RpcClient.EarlyCloseFails | migration-poc/robot-tests/GoNetworkLibrary.py:48-73 | a peer close before any parseable buffer ends in a "Connection error: ..." failure |
| RpcClient.FinalCloseSwallowed | migration-poc/robot-tests/GoNetworkLibrary.py:74-78 | the close in the finally clause never changes the outcome |
| RpcClient.SplitCharacterFailsAsWritten | migration-poc/robot-tests/GoNetworkLibrary.py:53-57 | a chunk that ends inside a multi-byte character makes the decode raise a non-JSON error, and the call fails |
| RpcClient.FacadeSplitCharacterFails | migration-poc/robot-tests/GoNetworkLibrary.py:53-57 | through the façade, a reply split inside a character raises "Connection error: " with the decoder's message, as the library does |
| RpcClient.SplitCharacterReadOn | migration-poc/robot-tests/GoNetworkLibrary.py:53-57 | when any decoding error keeps the loop reading, the same chunks give the reply |
| RpcClient.ModesAgree | migration-poc/robot-tests/GoNetworkLibrary.py:46-57 | the two loops agree whenever every partial buffer decodes |
| RpcClient.FacadeEnvelope | migration-poc/robot-tests/GoNetworkLibrary.py:80-159 | every façade method sends run_keyword with [name, positional] and {} through the receive loop as written, and returns that transport result unchanged |
| RpcClient.FacadeDefaults | migration-poc/robot-tests/GoNetworkLibrary.py:116-140 | ping_test defaults to vrf "default" and count 5; get_bgp_summary defaults to vrf "default" |
| RpcServer.DecodeRequest | migration-poc/go-library/main-final-working.go:557-568 | null decodes to the zero request; a value is rejected exactly when it is neither null nor an object, or is an object whose non-null method, args or kwargs is not a string, array or object respectively; otherwise each field is the given value, or empty when absent or null |
| RpcServer.EnvelopeRoundTrip | migration-poc/go-library/main-final-working.go:17-21 | every envelope the client builds decodes to the request it describes |
| RpcServer.ResponseJson | migration-poc/go-library/main-final-working.go:24-30 | status and return are always encoded; error and output only when non-empty |
| RpcServer.ClientReadsResponse | migration-poc/go-library/main-final-working.go:24-30 | the client reads a PASS response as its return value and any other as its error text, or 'Unknown error' when that is empty |
| RpcServer.HandleInjective | migration-poc/go-library/main-final-working.go:82 | distinct numbers give distinct "conn_<n>" handles |
| RpcServer.Connect | migration-poc/go-library/main-final-working.go:53-87 | the call fails exactly when the dial fails, with "SSH connection failed: <reason>"; on success the new handle is returned |
| RpcServer.Close | migration-poc/go-library/main-final-working.go:407-421 | an unknown handle is an error; otherwise exactly that handle is removed |
| RpcServer.ConnectOk | migration-poc/go-library/main-final-working.go:82-83 | a successful dial stores the session under the new handle and changes nothing else |
| RpcServer.ConnectFresh | migration-poc/go-library/main-final-working.go:82-83 | with counter numbering a new handle never overwrites a live one |
| RpcServer.NumberingsAgree | migration-poc/go-library/main-final-working.go:82 | until a handle is closed, numbering by size and by counter agree |
| RpcServer.ConnectTwiceCloseFirst | migration-poc/go-library/main-final-working.go:407-421 | connect, connect and close the first leaves one session, under the second handle |
| RpcServer.HandleCollisionBySize | migration-poc/go-library/main-final-working.go:82-83 | as written, connect, connect, close the first and connect again overwrites the live second session |
| RpcServer.NoCollisionByCounter | migration-poc/go-library/main-final-working.go:82-83 | with counter numbering the same sequence keeps both sessions |
| RpcServer.ExecuteCommand | migration-poc/go-library/main-final-working.go:90-94 | an unknown handle is an error before any device access |
| RpcServer.CleanOutputSpec | migration-poc/go-library/main-final-working.go:182-227 | nothing survives without a command echo; otherwise the result is the lines after the first echo, up to the first non-prompt "exit" line, minus prompt and "terminal length" lines; blank lines inside the output are kept |
| RpcServer.IsNumeric | migration-poc/go-library/main-final-working.go:315-322 | holds iff the string is non-empty and all ASCII digits |
| RpcServer.OspfNeighbors | migration-poc/go-library/main-final-working.go:240-262 | one entry per qualifying line, each with the fixed key set and single-token values |
| RpcServer.OspfNeighborsInOrder | migration-poc/go-library/main-final-working.go:245-257 | the i-th neighbour is built from the fields of the i-th qualifying line (containing "FULL" and "." with at least six fields), and there is one per such line |
| RpcServer.BgpScan | migration-poc/go-library/main-final-working.go:282-313 | the established count is the number of peers whose state mentions Established or is numeric |
| RpcServer.BgpPeersInOrder | migration-poc/go-library/main-final-working.go:291-308 | peer i is built from the i-th line holding "." with at least nine fields: neighbor and asn from its first two fields, state from its last (Established when that mentions Established or is numeric) |
| RpcServer.EstablishedAtMostPeers | migration-poc/go-library/main-final-working.go:282-313 | the established count never exceeds the number of peers |
| RpcServer.InterfaceUpIff | migration-poc/go-library/main-final-working.go:325-358 | the protocol is reported up exactly when there is a line containing "line protocol" (case-sensitive) and the first such line contains a lowercase "up" and, lowercased, contains "line protocol is up" |
| RpcServer.InterfaceStatus | migration-poc/go-library/main-final-working.go:325-358 | the result has exactly the keys interface, status and protocol, each status up, down or unknown; protocol up implies status up; status and protocol are unknown together, and always when no line mentions the line protocol |
| RpcServer.BgpCommand | migration-poc/go-library/main-final-working.go:265-272 | an empty or "default" vrf, and only those, runs "show bgp summary"; any other vrf gives exactly "show bgp vrf " + vrf + " summary" (prefix, suffix, vrf at offset 13 and total length) |
| RpcServer.PingCommandShape | migration-poc/go-library/main-final-working.go:361-368 | the command is exactly "ping " + dest + " count " + n, where dest is the target, or "vrf " + vrf + " " + target unless the vrf is empty or "default": prefix, dest at offset 5, suffix and total length |
| RpcServer.PingCommand | migration-poc/go-library/main-final-working.go:361-368 | the command starts "ping ", ends " count " + n, and has length 12 + \|target\| + \|n\| outside a VRF and 17 + \|vrf\| + \|target\| + \|n\| inside one |
| RpcServer.KeywordNamesListed | migration-poc/go-library/main-final-working.go:428-440 | get_keyword_names returns PASS with the seven keyword names in order and touches nothing |
| RpcServer.MethodErrors | migration-poc/go-library/main-final-working.go:442-454 | run_keyword without arguments fails with "No keyword specified"; an unknown method fails with "Unknown method: <method>" |
| RpcServer.HandleRequest | migration-poc/go-library/main-final-working.go:423-455 | a method other than run_keyword never panics and leaves the registry unchanged; a panic needs a run_keyword with arguments; the registry changes only through the Connect To Device and Close Connection keywords |
| RpcServer.ArityChecked | migration-poc/go-library/main-final-working.go:458-552 | too few arguments fail with the keyword's own message, before any registry or device access |
| RpcServer.UnknownKeyword | migration-poc/go-library/main-final-working.go:550-551 | an unknown keyword fails with "Unknown keyword: <name>" |
| RpcServer.OptionalArguments | migration-poc/go-library/main-final-working.go:507-534 | the BGP vrf defaults to "" and the ping count to 5 |
| RpcServer.RegistryEffects | migration-poc/go-library/main-final-working.go:458-552 | only connect and close change the registry, and with counter numbering it stays valid |
| RpcServer.FacadeDispatch | migration-poc/go-library/main-final-working.go:442-451 | each façade call reaches the keyword it names, with its positional arguments |
| RpcServer.FacadeKnown | migration-poc/go-library/main-final-working.go:458-552 | every façade keyword is known to the server and called with at least its minimum arguments |
| DeviceOs.DetectV22 | health_check_v2.2/ssh_health_check.go:83-134 | v2.2's ordered rules: IOS-XR exactly when an XR pattern matches the normalised type; L2-SWITCH exactly when no XR or XE pattern matched and an L2 one did; IOS-XE otherwise |
| DeviceOs.DetectV23 | health_check_v2.3/ssh_health_check.go:87-137 | v2.3's rules: ASR903/ASR920 are IOS-XE before any XR rule; IOS-XR and L2-SWITCH exactly when their patterns are the first to match |
| DeviceOs.DetectLab | health_check_logger_v2_lab/ssh_nested_multi_thread.go:259-288 | the lab rules: IOS-XR exactly when an XR pattern (ASR9, XRV, NCS, IOS-XR, IOSXR) matches the upper-cased type, so ASR903 and ASR920 count as IOS-XR; L2-SWITCH exactly when only an L2 pattern matches |
| DeviceOs.V22Asr9IsXr | health_check_v2.2/ssh_health_check.go:87-97 | any type containing "ASR9", including ASR903 and ASR920, is IOS-XR in v2.2 |
| DeviceOs.LabAsr9IsXr | health_check_logger_v2_lab/ssh_nested_multi_thread.go:263-266 | any type containing "ASR9" is IOS-XR in the lab logger |
| DeviceOs.V23Asr903IsXe | health_check_v2.3/ssh_health_check.go:95-98 | any type containing ASR903, ASR-903, ASR920 or ASR-920 is IOS-XE in v2.3 |
| DeviceOs.Asr903VersionsDisagree | health_check_v2.3/ssh_health_check.go:95-98 | an ASR903 is IOS-XR in v2.2 and the lab logger but IOS-XE in v2.3 |
| DeviceOs.CaseInsensitive | health_check_v2.3/ssh_health_check.go:88 | types equal up to letter case are classified alike by all three versions |
| DeviceOs.CatalystVersionsDisagree | health_check_logger_v2_lab/ssh_nested_multi_thread.go:268-272 | a plain Catalyst type is L2-SWITCH in v2.2 but IOS-XE in the lab logger |
| DeviceOs.DefaultIsXe | health_check_v2.3/ssh_health_check.go:136 | a type no rule matches is IOS-XE in every version |
| DeviceOs.ReadLines | health_check_v2.2/ssh_health_check.go:317-333 | the result is the trimmed lines of the file that the filter accepts, in file order and with duplicates kept |
| DeviceOs.ReadLinesAppendLine | health_check_v2.2/ssh_health_check.go:317-333 | appending one more line to the file appends its trimmed text to the result exactly when the filter accepts it |
| DeviceOs.ReadLinesKeeps | health_check_v2.2/ssh_health_check.go:325-330 | a trimmed line is returned iff the filter accepts it (no '#' comment, not blank; the lab also drops '//') |
| DeviceOs.CommandsForOs | health_check_v2.3/ssh_health_check.go:686-702 | the OS list when it is non-empty, otherwise the default list; an unknown OS gets the default |
| DeviceOs.CommandsNeverEmpty | health_check_v2.2/ssh_health_check.go:486-502 | with a non-empty default list no OS gets an empty list |
| DeviceOs.LoadCommands | health_check_logger_v2_lab/ssh_nested_multi_thread.go:765-814 | fails exactly when the command file cannot be read; on success the keys are exactly DEFAULT, IOS-XR, IOS-XE and L2-SWITCH |
| DeviceOs.LoadCommandsFallback | health_check_logger_v2_lab/ssh_nested_multi_thread.go:769-811 | an OS list is its own only when OS files are enabled and that file gives a non-empty list; otherwise it is the default list |
| DeviceOs.LookupCommands | health_check_logger_v2_lab/ssh_nested_multi_thread.go:549-559 | a missing OS falls back to DEFAULT; an empty list is the error "No commands defined for OS: <os>" |
| DeviceOs.EveryDeviceHasCommands | health_check_logger_v2_lab/ssh_nested_multi_thread.go:549-559 | with a non-empty default list every classified device gets commands |
| Demux.MarkersAreLines | health_check_v2.2/ssh_health_check.go:356-358 | the echo lines and markers hold no newline, so each is one line of the script and of the transcript |
| Demux.ScriptLines | health_check_v2.2/ssh_health_check.go:351-360 | "terminal length 0", "terminal width 512", then per command i its start echo, the command and its end echo, then "exit" |
| Demux.ScriptSplits | health_check_v2.3/ssh_health_check.go:356-365 | the script text splits back into exactly those lines when no command holds a newline |
| Demux.BlocksLayout | health_check_logger_v2_lab/ssh_nested_multi_thread.go:332-341 | command i sits between the echo lines of its own markers, in the order given |
| Demux.Locate | health_check_v2.3/ssh_health_check.go:404-422 | no start marker is reported iff the text lacks it; otherwise the first start marker is found, and the end marker is searched only after it |
| Demux.LocateFirst | health_check_v2.2/ssh_health_check.go:396-413 | with the first start marker at a and the first end marker after it at e, exactly those two are found |
| Demux.LocateUnclosed | health_check_v2.2/ssh_health_check.go:407-409 | with no end marker after the start, the rest of the text is reported unclosed |
| Demux.BetweenHasNoEnd | health_check_v2.3/ssh_health_check.go:416-420 | the text between the markers never holds the end marker |
| Demux.ExtractBetweenMarkers | health_check_logger_v2_lab/ssh_nested_multi_thread.go:415-428 | missing start marker gives ""; the result never holds the end marker and is no longer than the text |
| Demux.ExtractBetween | health_check_logger_v2_lab/ssh_nested_multi_thread.go:415-428 | with both markers present, the result is exactly the text strictly between them |
| Demux.ExtractUnclosed | health_check_logger_v2_lab/ssh_nested_multi_thread.go:422-425 | with the end marker missing, the result is everything after the start marker |
| Demux.PromptMeaning | health_check_v2.2/ssh_health_check.go:418-435 | the prompt scanners agree with the prompt patterns' meaning: word characters then '#' or '>' (then only white space, for the lab) |
| Demux.XrPromptPlain | health_check_v2.3/ssh_health_check.go:512-600 | a host name followed by '#' is recognised as an IOS-XR prompt |
| Demux.XrPromptNeedsHash | health_check_v2.3/ssh_health_check.go:512-600 | without a '#' nothing is an IOS-XR prompt, whatever the route-processor prefix |
| Demux.KeptLines | health_check_v2.2/ssh_health_check.go:418-435 | the surviving lines are a filtered subsequence of the input's lines and none is blank |
| Demux.CleanLines | health_check_v2.2/ssh_health_check.go:418-435 | the cleaned text has no white space at either end and is empty iff no line survives |
| Demux.CleanV22Free | health_check_v2.2/ssh_health_check.go:418-435 | v2.2 cleaned output never holds "===" or the Pseudo-terminal warning |
| Demux.CleanV23Free | health_check_v2.3/ssh_health_check.go:602-639 | v2.3 cleaned output additionally never holds the IOS.sh notice |
| Demux.V23KeepsLess | health_check_v2.3/ssh_health_check.go:602-639 | every line v2.3 keeps, v2.2 keeps too |
| Demux.KeptFromFirst | health_check_v2.3/ssh_health_check.go:512-600 | the IOS-XR loop keeps every accepted line from the first non-blank accepted line on, and nothing before it |
| Demux.KeptFromEmpty | health_check_v2.3/ssh_health_check.go:512-600 | something survives exactly when some line opens the output, and the first survivor is not blank |
| Demux.KeptFromTrimmed | health_check_v2.3/ssh_health_check.go:512-600 | the joined, trimmed survivors have no white space at either end and are empty exactly when no line opens the output |
| Demux.CleanIosXr | health_check_v2.3/ssh_health_check.go:512-600 | the IOS-XR cleaned output is trimmed at both ends and empty iff no line opens the output |
| Demux.CleanIosXrFree | health_check_v2.3/ssh_health_check.go:512-600 | the IOS-XR cleaned output never holds a marker or the Pseudo-terminal warning |
| Demux.KeepLabClean | health_check_logger_v2_lab/ssh_nested_multi_thread.go:431-487 | a kept lab line is not blank and holds no "===CMD_" marker |
| Demux.CleanLab | health_check_logger_v2_lab/ssh_nested_multi_thread.go:431-487 | empty iff no line is kept; otherwise its lines are exactly kept lines and every kept line appears |
| Demux.CleanLabLines | health_check_logger_v2_lab/ssh_nested_multi_thread.go:431-487 | no line of the lab output is blank, a marker or a bare prompt |
| Demux.CommandOutput | health_check_v2.3/ssh_health_check.go:404-422 | a missing start marker gives the version's placeholder; the output never holds the command's end marker |
| Demux.CommandOutputBetween | health_check_v2.2/ssh_health_check.go:410-411 | with both markers present, the output is the cleaned text strictly between them |
| Demux.CommandOutputUnclosed | health_check_v2.3/ssh_health_check.go:416-418 | with the end marker missing, v2.2 and v2.3 keep the trimmed remainder, uncleaned |
| Demux.Results | health_check_logger_v2_lab/ssh_nested_multi_thread.go:398-409 | the results have an entry for exactly the commands run |
| Demux.ResultsLast | health_check_v2.3/ssh_health_check.go:404-422 | a command's entry is the output between its own markers, numbered by its last position |
| SplitLines.Split | health_check_v2.3/test_iosxr_ssh.go:117-130 | no element holds a newline; the count is the newlines plus one when the text does not end in one; joining with newlines, plus a final one when the text ends in one, gives the text back; the empty text gives no lines |
| SplitLines.SplitMatchesLines | health_check_v2.3/test_iosxr_ssh.go:117-130 | any non-empty list of newline-free lines that joins back to the text is exactly its split lines, so the split is unique |
| Migration.Trunc | meralco-migration-toolkit/main.go:2015-2020 | unchanged when it fits; otherwise n characters: the first n-1 of the input, then "…" |
| Migration.TruncIdempotent | meralco-migration-toolkit/main.go:2015-2020 | the result always fits, and truncating it again changes nothing |
| Migration.CountLinesNonBlank | meralco-migration-toolkit/main.go:2027-2036 | countLines is exactly the number of non-blank lines of the text |
| Migration.LinePrefixesMeaning | meralco-migration-toolkit/main.go:2038-2049 | a line contributes prefixes only when it ends in a number the pattern matches, and contributes 0 when the pattern matches nowhere |
| Migration.SumPfxAppend | meralco-migration-toolkit/main.go:2038-2049 | the prefix sum of two joined outputs is the sum of their prefix sums |
| Migration.ParseRoutes | meralco-migration-toolkit/main.go:2051-2058 | without a "Total" match the result is the number of non-blank lines |
| Migration.ParseRoutesMeaning | meralco-migration-toolkit/main.go:2051-2058 | with a match, the number captured by the leftmost one; with no match anywhere, the non-blank line count |
| Migration.Evidence | meralco-migration-toolkit/main.go:2077-2126 | the facts pingRate consults are the leftmost matches of its four patterns and its two phrase tests |
| Migration.RateOf | meralco-migration-toolkit/main.go:2077-2126 | the rules in source order: success rate N gives N; else the first X/Y with Y>0 gives X*100/Y; else X% loss gives 100-X; else the round-trip and full-success phrases give 100; else 0 |
| Migration.RatioRule | meralco-migration-toolkit/main.go:2086-2095 | with no success-rate phrase and a usable ratio, the rate is X*100/Y of the first X/Y |
| Migration.PingRateRatioBound | meralco-migration-toolkit/main.go:2086-2095 | when X ≤ Y the ratio rule gives a percentage between 0 and 100 |
| Migration.PingRateSuccessMeaning | meralco-migration-toolkit/main.go:2078-2084 | whenever the success-rate phrase occurs, the leftmost one is found and its number is the rate |
| Migration.PingRateRatioMeaning | meralco-migration-toolkit/main.go:2086-2095 | with no success-rate phrase anywhere, the rate comes from the leftmost X/Y occurrence |
| Migration.PatternsSeparated | meralco-migration-toolkit/main.go:2038-2126 | each pattern's number tokens are separated by literals, so the scanner's greedy match is the regular expression's match |
| MigrationOps.TypedNumber | meralco-migration-toolkit/main.go:700-713 | strconv.Atoi with its error ignored: 0 on malformed input, clamped to the 64-bit range |
| MigrationOps.RemoveAt | meralco-migration-toolkit/main.go:706-711 | deleting element n-1 when 1 ≤ n ≤ len keeps the others in order; any other n leaves the list unchanged |
| MigrationOps.RemoveAtRestores | meralco-migration-toolkit/main.go:706-711 | putting the removed element back at its place gives the original list |
| MigrationOps.RemoveAtMultiset | meralco-migration-toolkit/main.go:706-711 | a removal takes away exactly one occurrence of the removed element |
| MigrationOps.RemoveDevice | meralco-migration-toolkit/main.go:700-713 | the list shrinks by at most one and only loses devices it held |
| MigrationOps.RemoveDeviceByNumber | meralco-migration-toolkit/main.go:700-713 | a typed number n in range removes exactly the n-th device |
| MigrationOps.RemoveDeviceCancels | meralco-migration-toolkit/main.go:700-713 | a malformed, non-positive or too large number leaves the list unchanged |
| MigrationOps.SearchBoundary | meralco-migration-toolkit/main.go:1764-1787 | the binary search returns a size in [1500, 9000] that passes while the next size fails, or 9000, or 1500 when 1500 fails |
| MigrationOps.FindMtu | meralco-migration-toolkit/main.go:1764-1787 | findMTU with its probe "ping vrf … size n df-bit" and the 100% rule returns such a boundary of the ping oracle |
| MigrationOps.BoundaryIsThreshold | meralco-migration-toolkit/main.go:1764-1787 | for an oracle that passes exactly the sizes up to t, the result is t clamped to [1500, 9000] |
| MigrationOps.BoundaryUnique | meralco-migration-toolkit/main.go:1764-1787 | a threshold oracle has exactly one boundary |
| MigrationOps.Overall | meralco-migration-toolkit/main.go:1861-1877 | FAIL iff some result failed; WARNING iff none failed and some warned; PASS otherwise |
| MigrationOps.OverallAppend | meralco-migration-toolkit/main.go:2148-2154 | the verdict of two runs of results is the worse of their verdicts |
| MigrationOps.Report | meralco-migration-toolkit/main.go:1854-1860 | no verdict is reported iff there are no results; otherwise the overall verdict |
| MigrationOps.BgpTrend | meralco-migration-toolkit/main.go:1273-1295 | CONVERGING exactly when the previous count was non-zero and the count rose; DIVERGING exactly when it was non-zero and the count fell; STABLE otherwise |
| MigrationOps.BgpTrendReverses | meralco-migration-toolkit/main.go:1273-1295 | swapping the two polls swaps increase and decrease |
| MigrationOps.Track | meralco-migration-toolkit/main.go:1279-1294 | twenty samples, each holding its poll's count; the first is STABLE and each later one carries its trend against the previous poll |
| MigrationOps.BgpMon | meralco-migration-toolkit/main.go:1273-1295 | bgpMon's samples are the prefix sums of the twenty polls with their trends |
| MigrationOps.QuietRunMeaning | meralco-migration-toolkit/main.go:1800-1830 | the stable counter after poll i is at least n exactly when the last n polls were all below the threshold |
| MigrationOps.DrainMon | meralco-migration-toolkit/main.go:1800-1830 | at most thirty polls; it stops complete at the first poll preceded by six quiet polls in a row, and otherwise runs all thirty without such a run |
| MigrationOps.DrainCompleteMeaning | meralco-migration-toolkit/main.go:1800-1830 | a complete drain ends on a poll preceded by six quiet polls in a row |
| MigrationOps.PingCount | meralco-migration-toolkit/main.go:1497-1500 | the count is at least 1: a typed positive number, otherwise 5 |
| MigrationOps.PingCountMeaning | meralco-migration-toolkit/main.go:1497-1500 | a typed positive number in range is used as typed |
| MigrationOps.SinglePingCommand | meralco-migration-toolkit/main.go:1486-1548 | the command is exactly "ping vrf " + vrf + " " + destination + the count clause, or "ping " + destination + the count clause for a blank, default or global VRF; the clause is "count n" on IOS-XR and "repeat n" elsewhere |
| MigrationOps.SinglePingCountReadsBack | meralco-migration-toolkit/main.go:1486-1548 | the count clause at the end of the command reads back as the count |
| MigrationVrf.StaticMatch | meralco-migration-toolkit/main.go:877-883 | the result is the first static VRF whose name equals the given one up to case, and there is none exactly when no static name matches |
| MigrationVrf.RowVrf | meralco-migration-toolkit/main.go:853-885 | a table row's VRF is named by its first field, takes the second field as RD only when it holds ':', has no route targets, comes from the device, and takes priority and description from the matching static entry or "medium" and none |
| MigrationVrf.TableFrom | meralco-migration-toolkit/main.go:829-887 | every VRF the table loop reports is a well-formed device VRF annotated from the static list, and there are no more of them than lines |
| MigrationVrf.TableFromStarted | meralco-migration-toolkit/main.go:833-886 | once the header has been seen, the loop reports exactly one VRF per data row, in order, each built from that row's fields |
| MigrationVrf.RowsOf | meralco-migration-toolkit/main.go:853-885 | one VRF per data row, in order, the k-th built from the k-th row's fields and the static list |
| MigrationVrf.ParseVrfOutput | meralco-migration-toolkit/main.go:823-890 | no header line gives no VRFs; otherwise the VRFs are exactly one per data row after the first header, in order, each a non-reserved device VRF built from that row's fields and the static list |
| MigrationVrf.BeforeHeaderIgnored | meralco-migration-toolkit/main.go:837-850 | lines before the column header contribute nothing: dropping them leaves the result unchanged |
| MigrationVrf.NoHeaderNoVrfs | meralco-migration-toolkit/main.go:828-850 | output without a column header yields no VRFs |
| MigrationVrf.StartedRows | meralco-migration-toolkit/main.go:833-886 | once the header is seen, the number of VRFs is exactly the number of data rows (non-blank, not a header or separator, not default, management or __bgp_vrf__) |
| MigrationVrf.RouteTarget | meralco-migration-toolkit/main.go:941-949 | no digits:digits match gives ""; otherwise the result is as long as the leftmost match |
| MigrationVrf.RouteTargetMeaning | meralco-migration-toolkit/main.go:941-949 | a non-empty route target is the text of a digits:digits match, and no match starts further left |
| MigrationVrf.NoRouteTarget | meralco-migration-toolkit/main.go:942-948 | a line with no digits:digits anywhere sets no route target |
| MigrationVrf.RdValue | meralco-migration-toolkit/main.go:927-935 | an RD read from a line is never empty and never "not set" |
| MigrationVrf.OpenStep | meralco-migration-toolkit/main.go:902-923 | the block a VRF line opens is a fresh device VRF (or none for default and management) |
| MigrationVrf.SetRd | meralco-migration-toolkit/main.go:926-936 | an RD line changes at most the RD, and never to "not set" |
| MigrationVrf.SetTargets | meralco-migration-toolkit/main.go:938-952 | a route-target line changes at most the import and export targets |
| MigrationVrf.DetailFrom | meralco-migration-toolkit/main.go:898-958 | every reported VRF has a name, is neither default nor management, has no "not set" RD, and there is at most one per VRF line (plus the open block) |
| MigrationVrf.ParseVrfDetailOutput | meralco-migration-toolkit/main.go:893-961 | every VRF parsed from detail output is a named device VRF with medium priority, and there are at most as many as VRF lines |
| MigrationVrf.DetailAccumulates | meralco-migration-toolkit/main.go:898-952 | lines inside a block that open no VRF only annotate the open VRF: the loop continues with that VRF annotated by all of them |
| MigrationVrf.DetailBlock | meralco-migration-toolkit/main.go:902-923 | a VRF line flushes the open VRF and opens a fresh one named from the line, which the rest of the block then annotates |
| MigrationVrf.BlockRd | meralco-migration-toolkit/main.go:926-936 | a block's RD is the value of the last line in it that sets an RD, and is unchanged when none does |
| MigrationVrf.BlockImport | meralco-migration-toolkit/main.go:940-945 | a block's import target is that of the last import line in it, and is unchanged when there is none |
| MigrationVrf.BlockExport | meralco-migration-toolkit/main.go:946-951 | a block's export target is that of the last export line in it, and is unchanged when there is none |
| MigrationVrf.NoBlockNoVrfs | meralco-migration-toolkit/main.go:901-924 | detail output without a VRF line yields no VRFs |
| MigrationVrf.VrfsForDevice | meralco-migration-toolkit/main.go:1008-1013 | the device's collected VRFs when it has any stored, else the static list |
| MigrationVrf.CollectVrfs | meralco-migration-toolkit/main.go:743-820 | collection changes no other device's entry and adds no other key; the device's entry afterwards is either a non-empty list or the entry it already had |
| MigrationVrf.CollectThenLookup | meralco-migration-toolkit/main.go:775-797 | after a table command that parses to VRFs, the lookup returns exactly those VRFs |
| MigrationVrf.FallbackToDetail | meralco-migration-toolkit/main.go:777-797 | when the table parses to nothing, the lookup returns the detail command's VRFs, if it found any |
| MigrationVrf.FailedCollectKeepsLookup | meralco-migration-toolkit/main.go:755-768 | a failed table command leaves every device's lookup as it was |
| MigrationVrf.NothingFoundKeepsLookup | meralco-migration-toolkit/main.go:775-819 | when the table output parses to nothing and the detail command fails or parses to nothing, the store, and so every lookup, is unchanged |
| XrCleaner.EscapeAt | meralco-migration-toolkit/main.go:285 | a reported escape sequence is ESC '[' then digits and ';' then one ASCII letter, occupying exactly the reported length |
| XrCleaner.EscapeAtComplete | meralco-migration-toolkit/main.go:285 | conversely, text that starts with such a sequence is recognised with exactly its length |
| XrCleaner.StripAnsi | meralco-migration-toolkit/main.go:285-286 | removing escape sequences only deletes characters, and text without ESC is unchanged |
| XrCleaner.StripAnsiSkips | meralco-migration-toolkit/main.go:285-286 | a leading escape sequence is removed entirely and the rest is cleaned on its own |
| XrCleaner.DropCr | meralco-migration-toolkit/main.go:289 | the result has no carriage return, only deletes characters, and is unchanged when there was none |
| XrCleaner.EchoPrefix | meralco-migration-toolkit/main.go:316 | the echo test uses a prefix of the command of length min(length, 10) |
| XrCleaner.XrFilter | meralco-migration-toolkit/main.go:294-336 | every kept line is one of the input lines and, trimmed, is non-blank, not a `terminal length` line, not the command echo, not a prompt ending in '#' or '>', not `exit`, not the "Building configuration" banner |
| XrCleaner.TerminalLengthSkipsNext | meralco-migration-toolkit/main.go:304-313 | the first non-blank line after a `terminal length` line is dropped whatever it holds |
| XrCleaner.PlainLineKept | meralco-migration-toolkit/main.go:296-335 | a line none of the rules drops is kept with its original spacing, in place |
| XrCleaner.EmptyCommandKeepsNothing | meralco-migration-toolkit/main.go:316-318 | with an empty command every line starts with the echo prefix, so nothing is kept |
| XrCleaner.KeptLines | meralco-migration-toolkit/main.go:283-336 | every kept line is free of newline and carriage return and has the kept shape |
| XrCleaner.CleanXrOutputNoCr | meralco-migration-toolkit/main.go:283-339 | the cleaned output holds no carriage return |
| XrCleaner.CleanXrOutputLines | meralco-migration-toolkit/main.go:283-339 | each line of a non-empty cleaned output is a kept line in the sense of the filter |
| Compare.DeviceRows | health_check_v2.3/ssh_health_check.go:160-193 | every stored device is keyed by its upper-cased hostname, has a hostname and an IP, carries the OS detected from its device type, and every key comes from an accepted row |
| Compare.ParseCsv | health_check_v2.2/ssh_health_check.go:140-193 | after the header row, the device map is well keyed in the same sense (both versions, each with its own OS detection) |
| Compare.LastRowWins | health_check_v2.3/ssh_health_check.go:184-191 | a later row for a hostname replaces the earlier entry and leaves every other entry alone |
| Compare.SkippedRow | health_check_v2.3/ssh_health_check.go:165-182 | a row with fewer than two fields or a blank hostname or IP changes nothing |
| Compare.CaseFoldedKey | health_check_v2.3/ssh_health_check.go:184 | two rows whose hostnames differ only in letter case give one device, the later one |
| Compare.MetricRows | health_check_v2.3/ssh_health_check.go:1206-1219 | every key is `host\|command_metric` built from columns 2, 6 and 7 of some record with at least nine columns |
| Compare.LastMetricWins | health_check_v2.3/ssh_health_check.go:1210-1217 | a record sets its key to its column-8 value and leaves every other key as it was |
| Compare.ShortMetricRowIgnored | health_check_v2.3/ssh_health_check.go:1210 | within the metric rows, a record with fewer than nine columns changes nothing (once LoadCsvData has accepted the file) |
| Compare.WidthMismatch | health_check_v2.3/ssh_health_check.go:1200-1204 | finds the first record whose width differs from the header's, and none exactly when all widths agree |
| Compare.LoadCsvData | health_check_v2.3/ssh_health_check.go:1191-1222 | an empty file loads nothing; loading fails exactly when some record's width differs from the header's, naming such a record; otherwise the map is built from the rows after the header |
| Compare.LoadedMetrics | health_check_v2.3/ssh_health_check.go:1206-1219 | a file that loads gives exactly the metric rows after the header |
| Compare.NarrowFileNoMetrics | health_check_v2.3/ssh_health_check.go:1200-1219 | a file that loads with a header narrower than nine columns has no metrics, since every record has the header's width |
| Compare.MetricKeyHost | health_check_v2.3/ssh_health_check.go:1216 | for a hostname without '\|', the first '\|' of a key sits right after the hostname |
| Compare.CompareStatus | health_check_v2.3/ssh_health_check.go:1138-1154 | CHANGED iff the values differ and one is not an int; DECREASED (INCREASED) iff they differ and both are ints with the post value smaller (larger); OK otherwise |
| Compare.CompareStatusSwap | health_check_v2.3/ssh_health_check.go:1138-1154 | swapping pre and post swaps DECREASED and INCREASED and keeps OK and CHANGED |
| Compare.SameNumberOk | health_check_v2.3/ssh_health_check.go:1143-1150 | two spellings of the same integer (say "7" and "+7") compare OK |
| Compare.MissingMetricChanged | health_check_v2.3/ssh_health_check.go:1135-1152 | a metric present in only one phase compares CHANGED |
| Compare.SplitOnFirst | health_check_v2.3/ssh_health_check.go:1118 | splitting at a separator peels off the text before its first occurrence as the first part |
| Compare.MetricOfKeyAsWritten | health_check_v2.3/ssh_health_check.go:1115-1130 | the metric read from a key as its second '\|'-separated part holds no '\|' |
| Compare.PipedCommandMasksChange | health_check_v2.3/ssh_health_check.go:1115-1154 | for a command holding '\|' the metric is cut at that '\|', the rebuilt key misses in both phases, and the row reads OK even though the recorded values differ |
| Compare.MetricOfKey | health_check_v2.3/ssh_health_check.go:1115-1130 | the corrected metric is None iff the key has no '\|', and otherwise is a strictly shorter suffix of the key |
| Compare.MetricOfKeyRecovers | health_check_v2.3/ssh_health_check.go:1134 | with the corrected reading, host + "\|" + metric rebuilds every key exactly |
| Compare.ReportedStatusCorrected | health_check_v2.3/ssh_health_check.go:1133-1154 | with the corrected reading, every row reports the status of the two values actually recorded for its key |
| Compare.ExtractAfter | health_check_v2.3/ssh_health_check.go:996-1002 | a line without the marker gives "" |
| Compare.ExtractAfterMeaning | health_check_v2.3/ssh_health_check.go:996-1002 | otherwise the result is the trimmed text after the first occurrence of the marker |
| Compare.VersionMetrics | health_check_v2.3/ssh_health_check.go:875-886 | `show version` yields Uptime iff some line reports an uptime and Version iff some line reports a version, and no other key |
| Compare.ExtractMetrics | health_check_v2.3/ssh_health_check.go:870-994 | every command yields at least one metric |
| Compare.CapturedMeaning | health_check_v2.3/ssh_health_check.go:988-991 | the Captured fallback is used exactly when the command's family extracts nothing, and then the result is exactly Captured=Yes and OutputLines = the number of split lines |
| Compare.KnownKindMeasured | health_check_v2.3/ssh_health_check.go:887-986 | OSPF, BGP, LDP, interface, VRF, BFD and L2VPN commands always yield their own counts |
| Compare.OtherIsCaptured | health_check_v2.3/ssh_health_check.go:873-991 | a command of no known family yields exactly the Captured fallback |
| Compare.BgpEstablishedAtMostTotal | health_check_v2.3/ssh_health_check.go:902-917 | the BGP established count never exceeds the neighbor total |
| Compare.LinkCountsPartition | health_check_v2.3/ssh_health_check.go:928-944 | each interface line is counted as up, admin-down or down at most once: the three counts add up to the counted lines |
| Compare.ExtractColumn | health_check_logger_v2_lab/ssh_nested_multi_thread.go:227-231 | the column is a prefix of the cell reference made only of A-Z |
| Compare.ExtractColumnOfCell | health_check_logger_v2_lab/ssh_nested_multi_thread.go:227-231 | for letters followed by a row number, the column is exactly the letters |

## Left out

- SSH sessions, PTYs, `sshpass`/`exec.Command`, sleeps and retries: every device exchange is a parameter (`Env.dial`, `run`, `reply`, `poll`) that gives the outcome or the transcript.
- Sockets and the Python `socket` module: the client sees a `Socket` record of step outcomes and a sequence of receive events; the server's listener and connection loop are not modelled.
- JSON encoding and decoding and UTF-8 decoding: they are the function-valued fields of a `Codec` record, so the model makes no claim about those libraries.
- Regular expressions: each pattern the code compiles is a hand-written token sequence (`Pattern`), with leftmost-match search; only the patterns used are modelled, not a regex engine.
- Goroutine worker pools, channels, mutexes and timeout `select`: they only add concurrency around the sequential logic modelled here.
- Floating point: `parseRates`, the success percentages of `parsePingOutput` and the summary, and `drainThreshold`; `drainMon` takes integer rates and an integer threshold.
- Interactive menus, `readLine`, printing, the HTML/log/CSV/JSON writers, `openBrowser`, `parseXLSX` beyond `extractColumn`, and inventory file probing: they are I/O.
- Timestamps such as `CollectedAt`: the VRF store keeps only the VRF list per hostname.
- Map iteration order in `comparePhases` and `genHTMLContent`: the model states the status of each metric row, not the order rows are written.
- Go's type-assertion panics on RPC arguments that are not strings or numbers: they are a `Panicked` reply, not a recovered error text.
- health_check_v2.3/test_iosxr_ssh3.go, ssh_test_XR_only/test_iosxr_ssh4.go and ssh_test_XR_only/test_ssh_fresh.go are not part of this model: they hold no logic apart from SSH I/O.
- Lengths count characters, not UTF-8 bytes, and `ToUpper`/`ToLower`/`EqualFold` fold ASCII letters only; the device names and commands the code handles are ASCII.
- Migration.Trunc: requires n ≥ 1 when the string is longer than n, where Go would panic on `s[:n-1]`; it counts characters where Go slices bytes.
- XrCleaner.EchoPrefix: takes ten characters where Go takes ten bytes, which differ only for non-ASCII commands.
- Migration.SumPfx: the sum is an unbounded `nat`; Go's `int` would wrap past 2^63 - 1.
- Migration.RateOf: `received*100` is computed without 64-bit wrap-around.
- MigrationOps.RemoveDeviceCancels: requires fewer than 2^63 - 1 devices, so that every typed number Go accepts is in range.
- The IOS-XR prompt rule's acceptance of `RP/...` prefixes: only the plain-prompt and hash-required directions are stated (`XrPromptPlain`, `XrPromptNeedsHash`).
- `singlePing`'s verdict printing: only the command it builds and the count it reads are modelled.
- Numbers: JSON numbers are integers in the model, so Go's `int(args[3].(float64))` truncation of a fractional ping count (main-final-working.go line 533) and Python's float formatting in error texts are not modelled.
- RpcClient.PyStr: an error value that is a list or an object is rendered as "[...]" or "{...}", where Python would print its full `str()`.
- RpcServer.DecodeRequest: Go's case-insensitive matching of JSON keys (a "METHOD" key filling `Method`) is not modelled; object keys are matched exactly.
- MigrationVrf.DetailFrom: its own contract states the shape and the count of the VRFs; what each block contributes (name, RD, import and export targets) is stated by DetailBlock, DetailAccumulates, BlockRd, BlockImport and BlockExport.
- MigrationVrf.ParseVrfDetailOutput: as for DetailFrom, the per-block contents are stated by the block lemmas, not by its own contract.
- Compare.LoadCsvData: a record of the wrong width is reported by its index, not by Go's line-numbered `csv.ParseError`; quoting rules of `encoding/csv` are part of the record parser, which is not modelled.

## Findings

| source | as written | input that shows it | evidently intended | confidence | as-written member | corrected member |
|---|---|---|---|---|---|---|
| migration-poc/robot-tests/GoNetworkLibrary.py:53-57 | each partial buffer is decoded with `decode()`, and only `JSONDecodeError` keeps the loop reading | a reply whose first chunk ends inside a multi-byte UTF-8 character: `decode()` raises `UnicodeDecodeError` and the call fails with "Connection error: …" | keep reading until the whole reply decodes and parses | not executed | RpcClient.SplitCharacterFailsAsWritten | RpcClient.SplitCharacterReadOn |
| migration-poc/go-library/main-final-working.go:82-83 | a new handle is "conn_" + (number of live handles + 1) | connect, connect, close conn_1, connect: the third session is stored as conn_2 and replaces the live second session | handles from a counter that never goes back | not executed | RpcServer.HandleCollisionBySize | RpcServer.NoCollisionByCounter |
| health_check_v2.3/ssh_health_check.go:1115-1134 | the metric of a key is its second '\|'-separated part | a command such as `show run \| include mtu` whose values differ between phases: the metric is cut at the command's '\|', the rebuilt key exists in neither phase, and the row reads OK | the metric is everything after the hostname's '\|' | not executed | Compare.PipedCommandMasksChange | Compare.ReportedStatusCorrected |
