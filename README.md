# NearShare core in Dafny

NearShare is an Android app that sends texts and files between two phones
over Wi-Fi Direct. This project models its core:

- **The two wire protocols.**
  - `SendReceiveThread` speaks one of them. Each frame is a 4-byte type tag and an 8-byte length, followed by a text or a file.
  - `TransferService` speaks the other. Each frame is a 4-byte ASCII header (`NAME`, `TEXT` or `FILE`), followed by Int or Long lengths and the payload.
  - The model covers both sending and receiving, and both read loops.
- **The discovery screen.** `DeviceDiscoveryActivity` is fed by `DirectBroadcastReceiver`. It finds peers, connects to one, retries when the radio is busy, and hands the connection over to the transfer screen.
- **The small list stores and row binders.**
  - `HistoryRepository` stores a JSON array in the preferences.
  - `HistoryActivity` shows it.
  - `DeviceAdapter`, `HistoryAdapter`, `TransferAdapter` and `ChatAdapter` bind the rows.

The Kotlin classes whose fields change become Dafny classes, with
`modifies` clauses and loops that carry invariants:

- `SendReceiveThread`, `TransferService`, `DeviceDiscoveryActivity`, `HistoryRepository` and the adapters.
- The `ChatAdapter` row holder.

Each class is proved against pure specification functions:

- `SendReceive.RunSpec` and `Transfer.Listen`, for what a read loop posts and writes.
- `HistoryStore.Load` and `HistoryStore.Encoded`, for what is stored.
- `Chat.Row`, for how a row is laid out.

The main properties proved about those functions are:

- **Session round trips.** Whatever the sender sends, and whatever short reads the network makes, the receiver posts every text and saves every file, in order, provided sends do not overlap. This holds for `SendReceiveThread` as written, whose lock keeps each frame whole. For `TransferService` it holds for the corrected reading, in which every field is read in full (see Findings); the service as written loses frames when a field read is cut short. The service has no write lock, so the round trip assumes its sends do not overlap (see Left out).
- **The history store.** Saving and loading round-trip.
- **Peer lookup.** It picks the first peer with a given name.
- **MIME tables.** Which extensions map to which type, and whether case matters.
- **Row binding.** It shows exactly one view. In the corrected binding (see Findings), it does not depend on what the row showed before. As written, a row whose image or video file is missing keeps the previous picture.

Streams are values (`Streams.Stream`) with three parts:

- the bytes still to arrive;
- the sizes of the next reads that the network cuts short;
- how the stream ends: the peer closes it, or it throws.

Files:

- `wire.dfy`: big-endian Int and Long encoding.
- `records.dfy`: the app's records and string helpers.
- `streams.dfy`: the stream and read model.
- `send_receive.dfy`, `transfer_service.dfy`, `broadcast.dfy`, `discovery.dfy`, `device_adapter.dfy`, `history_store.dfy`, `history_adapter.dfy`, `history_screen.dfy`, `transfer_adapter.dfy`, `chat_adapter.dfy`: one source file each.

## Model

| member | source | states |
|---|---|---|
| Wire.Int32RoundTrip | app/src/main/java/com/example/nearshare/wifi/TransferService.kt:126 | A 4-byte big-endian two's-complement Int (ByteBuffer.putInt, then getInt) decodes to the value that was encoded |
| Wire.Int64RoundTrip | app/src/main/java/com/example/nearshare/wifi/TransferService.kt:173 | An 8-byte big-endian Long (putLong, then getLong) decodes to the value that was encoded |
| Wire.LongToInt | app/src/main/java/com/example/nearshare/wifi/TransferService.kt:210 | Long.toInt keeps the low 32 bits: the result is an Int, equal to the input when the input fits, and congruent to it modulo 2^32 |
| Records.NatTextValue | app/src/main/java/com/example/nearshare/DeviceDiscoveryActivity.kt:199 | The decimal text of a count reads back as that count |
| Records.AfterLast | app/src/main/java/com/example/nearshare/HistoryActivity.kt:66 | substringAfterLast: `missing` when the separator is absent; otherwise a separator-free tail that follows some occurrence of the separator |
| Records.AfterLastOf | app/src/main/java/com/example/nearshare/HistoryActivity.kt:66 | What follows a separator that is not repeated in the tail is exactly that tail |
| Records.LowerOfUpper | app/src/main/java/com/example/nearshare/TransferAdapter.kt:88 | Lower-casing after upper-casing gives what lower-casing alone gives |
| Streams.Read | app/src/main/java/com/example/nearshare/wifi/TransferService.kt:99 | One read: 0 bytes when asked for 0; -1 or a throw once nothing is pending; otherwise between 1 and n bytes, fewer when the network cuts the read short |
| Streams.ReadFully | app/src/main/java/com/example/nearshare/wifi/SendReceiveThread.kt:42 | readFully completes iff n bytes are pending and then takes exactly them; otherwise it takes all and ends as the stream does |
| SendReceive.Header | app/src/main/java/com/example/nearshare/wifi/SendReceiveThread.kt:108-109 | The 12-byte header decodes with readInt and readLong to the tag and size it was written with |
| SendReceive.Frame | app/src/main/java/com/example/nearshare/wifi/SendReceiveThread.kt:103-117 | A frame is its header followed by exactly the payload |
| SendReceive.SavedPath | app/src/main/java/com/example/nearshare/wifi/SendReceiveThread.kt:60 | A received file's path lies inside the app's files directory |
| SendReceive.SavedPathsDistinct | app/src/main/java/com/example/nearshare/wifi/SendReceiveThread.kt:60 | Files stamped with different times get different path strings; files of one type stamped in the same millisecond share a path (see Left out) |
| SendReceive.TextSpec | app/src/main/java/com/example/nearshare/wifi/SendReceiveThread.kt:40-45 | The TEXT branch never consumes more than what follows the header |
| SendReceive.FileSpec | app/src/main/java/com/example/nearshare/wifi/SendReceiveThread.kt:58-77 | The file branch never consumes more than what follows the header |
| SendReceive.FrameSpec | app/src/main/java/com/example/nearshare/wifi/SendReceiveThread.kt:33-49 | A pass of the read loop that goes on has consumed at least the 12 header bytes |
| SendReceive.FrameOfHeader | app/src/main/java/com/example/nearshare/wifi/SendReceiveThread.kt:35-49 | After a whole header, the pass dispatches on its tag with its size |
| SendReceive.Chunks | app/src/main/java/com/example/nearshare/wifi/SendReceiveThread.kt:90-93 | The chunks sendFile writes concatenate to the whole file, and each holds 1 to 8192 bytes |
| SendReceive.CopyChunks | app/src/main/java/com/example/nearshare/wifi/SendReceiveThread.kt:90-93 | The copy loop writes exactly the chunks Chunks describes, and so the whole file, whatever the short reads |
| SendReceive.ChunksWhenReadsFill | app/src/main/java/com/example/nearshare/wifi/SendReceiveThread.kt:85-93 | With no short reads, every chunk but the last is a full 8192 bytes |
| SendReceive.TwentyThousandBytes | app/src/main/java/com/example/nearshare/wifi/SendReceiveThread.kt:26 | A 20000-byte file goes out as 8192, 8192 and 3616 bytes |
| SendReceive.SendReceiveThread.constructor | app/src/main/java/com/example/nearshare/wifi/SendReceiveThread.kt:16-26 | A new thread is running, with streams not yet open and nothing sent or received |
| SendReceive.SendReceiveThread.Close | app/src/main/java/com/example/nearshare/wifi/SendReceiveThread.kt:123-126 | close clears isRunning and closes the socket, changing nothing else |
| SendReceive.SendReceiveThread.Abort | app/src/main/java/com/example/nearshare/wifi/SendReceiveThread.kt:51-55 | After an IOException while running, "Disconnected" is posted, then the thread closes; -1 is treated the same way |
| SendReceive.SendReceiveThread.ReadText | app/src/main/java/com/example/nearshare/wifi/SendReceiveThread.kt:40-45 | The TEXT branch does what TextSpec says, with the size cut to an Int |
| SendReceive.SendReceiveThread.ReceiveFile | app/src/main/java/com/example/nearshare/wifi/SendReceiveThread.kt:58-77 | receiveFile's loop, with reads of at most 8192 bytes, does what FileSpec says: it keeps what arrived and reports the file unless a read threw |
| SendReceive.SendReceiveThread.ReadHeader | app/src/main/java/com/example/nearshare/wifi/SendReceiveThread.kt:35-37 | readInt and readLong succeed iff 12 bytes are pending, and decode them; otherwise the failure is posted |
| SendReceive.SendReceiveThread.ReadFrame | app/src/main/java/com/example/nearshare/wifi/SendReceiveThread.kt:33-49 | One pass of run's loop does what FrameSpec says |
| SendReceive.SendReceiveThread.Run | app/src/main/java/com/example/nearshare/wifi/SendReceiveThread.kt:28-56 | run posts and writes exactly what RunSpec says of the incoming bytes, then stops running |
| SendReceive.SendReceiveThread.SendText | app/src/main/java/com/example/nearshare/wifi/SendReceiveThread.kt:103-117 | sendText appends one whole TEXT frame, or posts "Send Failed" when it cannot write |
| SendReceive.SendReceiveThread.SendFile | app/src/main/java/com/example/nearshare/wifi/SendReceiveThread.kt:80-101 | sendFile appends the header and the whole file, in the chunks Chunks describes, or posts "Send Failed" |
| SendReceive.TextFrameDelivered | app/src/main/java/com/example/nearshare/wifi/SendReceiveThread.kt:40-45 | A whole TEXT frame is posted as the same bytes, and reading goes on after it |
| SendReceive.FileFrameDelivered | app/src/main/java/com/example/nearshare/wifi/SendReceiveThread.kt:58-77 | A whole file frame becomes one saved file with exactly the sent bytes, reported as a message of the same type |
| SendReceive.UnknownTagSkipsHeader | app/src/main/java/com/example/nearshare/wifi/SendReceiveThread.kt:39-49 | A header with an unknown tag is dropped alone, and its length is not skipped |
| SendReceive.PartialFileKept | app/src/main/java/com/example/nearshare/wifi/SendReceiveThread.kt:65-72 | If the peer closes mid-file, the partial file is kept and reported, and then "Disconnected" is posted |
| SendReceive.BrokenFileKeptSilently | app/src/main/java/com/example/nearshare/wifi/SendReceiveThread.kt:73-76 | If the stream breaks mid-file, the part is kept, nothing is posted, and the session closes |
| SendReceive.NegativeTextLengthEndsSilently | app/src/main/java/com/example/nearshare/wifi/SendReceiveThread.kt:41 | A TEXT length that reads as a negative Int ends the session with nothing posted |
| SendReceive.FrameDelivered | app/src/main/java/com/example/nearshare/wifi/SendReceiveThread.kt:28-56 | One sent message, whatever follows it, is received as Expected says |
| SendReceive.SessionRoundTrip | app/src/main/java/com/example/nearshare/wifi/SendReceiveThread.kt:28-117 | Every text and file sent in a session is posted or saved by the peer, in order, and then the end of the stream is reported |
| Transfer.DownloadPath | app/src/main/java/com/example/nearshare/wifi/TransferService.kt:205 | A received file lands at Downloads + "/" + its name |
| Transfer.DownloadPathsDistinct | app/src/main/java/com/example/nearshare/wifi/TransferService.kt:205 | Different names give different path strings; two strings may still name one file (see Left out) |
| Transfer.OneRead | app/src/main/java/com/example/nearshare/wifi/TransferService.kt:74 | One read call takes at most n bytes, a prefix of what is pending; -1 only at a closed end, a throw only at a broken one |
| Transfer.FillLoop | app/src/main/java/com/example/nearshare/wifi/TransferService.kt:96-102 | The fill loop fills the buffer iff n bytes are pending, and otherwise takes everything; it never spins |
| Transfer.FillLoopIs | app/src/main/java/com/example/nearshare/wifi/TransferService.kt:96-102 | Any loop result that took a prefix and stopped for the loop's reasons is FillLoop's result |
| Transfer.ReadField | app/src/main/java/com/example/nearshare/wifi/TransferService.kt:80-82 | A header field is read with one read call as written, or with the fill loop when corrected |
| Transfer.FileAsk | app/src/main/java/com/example/nearshare/wifi/TransferService.kt:210 | The corrected ask is between 1 and 4096, never more than what is left, and equals one of the two |
| Transfer.NameBody | app/src/main/java/com/example/nearshare/wifi/TransferService.kt:78-90 | The NAME branch never hangs and never writes a file |
| Transfer.TextBody | app/src/main/java/com/example/nearshare/wifi/TransferService.kt:91-104 | The TEXT branch never hangs and never writes a file |
| Transfer.FileBody | app/src/main/java/com/example/nearshare/wifi/TransferService.kt:187-217 | With the corrected reads, handleFileReceive never hangs |
| Transfer.FilePayloadCorrected | app/src/main/java/com/example/nearshare/wifi/TransferService.kt:205-216 | The file holds exactly what the fill loop took, and is reported unless a read threw |
| Transfer.FileLoopPrefix | app/src/main/java/com/example/nearshare/wifi/TransferService.kt:209-214 | The as-written file loop writes only the stream's bytes, in order, and keeps the rest |
| Transfer.ListenStep | app/src/main/java/com/example/nearshare/wifi/TransferService.kt:71-110 | A pass that goes on consumes at least one byte; corrected, no pass hangs |
| Transfer.NameRoundTrip | app/src/main/java/com/example/nearshare/wifi/TransferService.kt:78-90 | In the corrected reading (full field reads), sendName's frame is received as the same name, whatever the short reads, and reading goes on after it |
| Transfer.TextRoundTrip | app/src/main/java/com/example/nearshare/wifi/TransferService.kt:91-104 | In the corrected reading (full field reads), sendText's frame is received as the same text, whatever the short reads |
| Transfer.FileRoundTrip | app/src/main/java/com/example/nearshare/wifi/TransferService.kt:187-217 | In the corrected reading (full field reads, the ask taken in Long arithmetic), sendFile's frame is saved under its name in Downloads with exactly the sent bytes, and reported |
| Transfer.UnknownHeaderSkipped | app/src/main/java/com/example/nearshare/wifi/TransferService.kt:77-109 | A header that is none of NAME, TEXT and FILE is dropped alone |
| Transfer.ListenEnds | app/src/main/java/com/example/nearshare/wifi/TransferService.kt:74 | With nothing left, the header read meets -1 or a throw and listening ends with nothing posted |
| Transfer.TextCutShort | app/src/main/java/com/example/nearshare/wifi/TransferService.kt:96-103 | If the peer closes inside a text, the text is still posted, with its missing tail as zero bytes, and listening ends |
| Transfer.FrameReceived | app/src/main/java/com/example/nearshare/wifi/TransferService.kt:71-110 | In the corrected reading (full field reads), any one sendable frame, whatever follows it, is received as Delivery says |
| Transfer.SessionRoundTrip | app/src/main/java/com/example/nearshare/wifi/TransferService.kt:66-217 | With full field reads, every name, text and file sent is posted or saved by the peer, in order, whatever the short reads |
| Transfer.OneReadCut | app/src/main/java/com/example/nearshare/wifi/TransferService.kt:74 | A read the network cuts short delivers only the bytes it allows |
| Transfer.CutHeaderListen | app/src/main/java/com/example/nearshare/wifi/TransferService.kt:73-77 | As written, a header read that is cut short and names no frame is skipped, together with its bytes |
| Transfer.UnknownHeaderListen | app/src/main/java/com/example/nearshare/wifi/TransferService.kt:77-109 | Four bytes that name no frame are skipped in either reading when reads are not cut short |
| Transfer.TextFrameOfHi | app/src/main/java/com/example/nearshare/wifi/TransferService.kt:147-149 | The bytes of the TEXT frame for "hi" |
| Transfer.ShortHeaderReadLosesText | app/src/main/java/com/example/nearshare/wifi/TransferService.kt:73-74 | As written, a 2-byte first read makes the TEXT frame for "hi" be taken for unknown headers, and nothing is posted |
| Transfer.FullHeaderReadKeepsText | app/src/main/java/com/example/nearshare/wifi/TransferService.kt:91-104 | Read in full, the same bytes with the same short read deliver "hi" |
| Transfer.TextRoundTripWhenReadsFill | app/src/main/java/com/example/nearshare/wifi/TransferService.kt:91-104 | As written, a TEXT frame is received whole when no read is cut short |
| Transfer.FileSizedAsWritten | app/src/main/java/com/example/nearshare/wifi/TransferService.kt:199-216 | As written, a size whose low 32 bits are 0 or negative yields an empty file that hangs or is never reported |
| Transfer.LargeFileAsWritten | app/src/main/java/com/example/nearshare/wifi/TransferService.kt:208-214 | As written, a whole FILE frame whose size's toInt is 0 hangs the loop, and a negative one throws and ends listening |
| Transfer.FourGiBFileHangs | app/src/main/java/com/example/nearshare/wifi/TransferService.kt:210 | A 4 GiB file makes the as-written loop ask for 0 bytes forever |
| Transfer.TwoGiBFileThrows | app/src/main/java/com/example/nearshare/wifi/TransferService.kt:210 | A 2 GiB file makes the as-written ask negative: read throws and listening ends |
| Transfer.TransferService.constructor | app/src/main/java/com/example/nearshare/wifi/TransferService.kt:13-27 | A new service has no socket, is not running, and has sent and received nothing |
| Transfer.TransferService.Close | app/src/main/java/com/example/nearshare/wifi/TransferService.kt:219-222 | close clears isRunning and closes the socket |
| Transfer.TransferService.FillBuffer | app/src/main/java/com/example/nearshare/wifi/TransferService.kt:96-102 | The read loop takes exactly what FillLoop says |
| Transfer.TransferService.ReadName | app/src/main/java/com/example/nearshare/wifi/TransferService.kt:78-90 | The NAME branch, with full reads, does what NameBody says |
| Transfer.TransferService.ReadText | app/src/main/java/com/example/nearshare/wifi/TransferService.kt:91-104 | The TEXT branch, with full reads (corrected), does what TextBody says |
| Transfer.TransferService.CopyFile | app/src/main/java/com/example/nearshare/wifi/TransferService.kt:207-214 | The file loop, asking for at most 4096 bytes and never more than is left, takes exactly what FillLoop takes for the file's size |
| Transfer.TransferService.ReceivePayload | app/src/main/java/com/example/nearshare/wifi/TransferService.kt:205-216 | The file and its report are as the corrected FilePayload says |
| Transfer.TransferService.HandleFileReceive | app/src/main/java/com/example/nearshare/wifi/TransferService.kt:187-217 | handleFileReceive, with full field reads and the corrected ask, does what FileBody says |
| Transfer.TransferService.ListenFrame | app/src/main/java/com/example/nearshare/wifi/TransferService.kt:72-109 | One pass of the loop, with full field reads (corrected), does what ListenStep says |
| Transfer.TransferService.ListenForData | app/src/main/java/com/example/nearshare/wifi/TransferService.kt:66-114 | While running, listenForData, with full field reads (corrected), posts and saves exactly what Listen says of the incoming bytes |
| Transfer.TransferService.SendName | app/src/main/java/com/example/nearshare/wifi/TransferService.kt:116-135 | The NAME frame is appended iff a socket is open |
| Transfer.TransferService.SendText | app/src/main/java/com/example/nearshare/wifi/TransferService.kt:142-153 | The TEXT frame is appended iff a socket is open |
| Transfer.TransferService.SendFile | app/src/main/java/com/example/nearshare/wifi/TransferService.kt:155-185 | The whole FILE frame is appended, in chunks of at most 4096 bytes, iff a socket is open and the file opens |
| Transfer.TransferService.Start | app/src/main/java/com/example/nearshare/wifi/TransferService.kt:29-64 | Once connected: running, my name sent first, then exactly what the corrected Listen (full field reads) says is posted and saved; a failed connect changes nothing |
| Broadcast.OnReceive | app/src/main/java/com/example/nearshare/wifi/DirectBroadcastReceiver.kt:27-66 | The state action reports enabled iff the extra is 2 (missing reads -1); peers pass the list on; connection changes report info iff connected, and a disconnect otherwise; other actions report nothing |
| DeviceList.DeviceAdapter.constructor | app/src/main/java/com/example/nearshare/DeviceAdapter.kt:15 | A new adapter has no devices |
| DeviceList.DeviceAdapter.UpdateList | app/src/main/java/com/example/nearshare/DeviceAdapter.kt:17-21 | After updateList the rows are exactly the new list |
| DeviceList.DeviceAdapter.ItemCount | app/src/main/java/com/example/nearshare/DeviceAdapter.kt:33 | The count is the number of rows |
| DeviceList.DeviceAdapter.Clicked | app/src/main/java/com/example/nearshare/DeviceAdapter.kt:36-43 | A tap on a row passes that row's device |
| Discovery.DeviceStatus | app/src/main/java/com/example/nearshare/DeviceDiscoveryActivity.kt:224-233 | "Unknown" iff the code is not one of the five WifiP2pDevice states; each of the five codes gets its own name (Connected, Invited, Failed, Available, Unavailable) |
| Discovery.ViewList | app/src/main/java/com/example/nearshare/DeviceDiscoveryActivity.kt:193-195 | One row per peer, in order, with its name and its status text |
| Discovery.FindByName | app/src/main/java/com/example/nearshare/DeviceDiscoveryActivity.kt:142 | find gives nothing iff no peer has the name; otherwise the first peer with it |
| Discovery.SameNameFirstWins | app/src/main/java/com/example/nearshare/DeviceDiscoveryActivity.kt:142 | Of two peers with the same display name, a tap always reaches the first |
| Discovery.RoleOf | app/src/main/java/com/example/nearshare/TransferActivity.kt:51 | The group owner serves; the other side connects to the owner's address |
| Discovery.HandOvers | app/src/main/java/com/example/nearshare/DeviceDiscoveryActivity.kt:204-214 | The hand-over count of an effect log is at most its length, and zero iff the log holds no hand-over |
| Discovery.HandOversAppend | app/src/main/java/com/example/nearshare/DeviceDiscoveryActivity.kt:204-214 | Hand-overs of two logs add up |
| Discovery.DeviceDiscoveryActivity.constructor | app/src/main/java/com/example/nearshare/DeviceDiscoveryActivity.kt:36-107 | Host mode iff MODE is "RECEIVE" (missing means "SEND"), with that mode's title and status, and an empty list |
| Discovery.DeviceDiscoveryActivity.OnResume | app/src/main/java/com/example/nearshare/DeviceDiscoveryActivity.kt:49-65 | Registers the receiver and removes old groups; the mode starts after 800 ms only with permissions |
| Discovery.DeviceDiscoveryActivity.OnPause | app/src/main/java/com/example/nearshare/DeviceDiscoveryActivity.kt:67-73 | Unregisters, then stops discovery, but only if registered: when unregistering throws, the stop is skipped |
| Discovery.DeviceDiscoveryActivity.StartHostMode | app/src/main/java/com/example/nearshare/DeviceDiscoveryActivity.kt:111-113 | Asks for a group |
| Discovery.DeviceDiscoveryActivity.GroupCreated | app/src/main/java/com/example/nearshare/DeviceDiscoveryActivity.kt:114-120 | On success "Ready to Receive"; on failure it falls back to discovery |
| Discovery.DeviceDiscoveryActivity.StartDiscoveryMode | app/src/main/java/com/example/nearshare/DeviceDiscoveryActivity.kt:126-127 | Asks for discovery |
| Discovery.DeviceDiscoveryActivity.DiscoveryStarted | app/src/main/java/com/example/nearshare/DeviceDiscoveryActivity.kt:128-133 | "Searching..." or "Discovery Failed (reason)" |
| Discovery.DeviceDiscoveryActivity.StartMode | app/src/main/java/com/example/nearshare/DeviceDiscoveryActivity.kt:57-63 | The delayed start runs the mode's own action |
| Discovery.DeviceDiscoveryActivity.ConnectToDevice | app/src/main/java/com/example/nearshare/DeviceDiscoveryActivity.kt:141-156 | An unknown name does nothing; otherwise it connects to the first peer of that name's address with group-owner intent 0 |
| Discovery.DeviceDiscoveryActivity.ConnectAnswered | app/src/main/java/com/example/nearshare/DeviceDiscoveryActivity.kt:157-173 | Success says the invitation was sent; BUSY schedules a retry in 1000 ms; other reasons report the failure |
| Discovery.DeviceDiscoveryActivity.RunDelayed | app/src/main/java/com/example/nearshare/DeviceDiscoveryActivity.kt:166-168 | A posted callback runs once and is removed: the mode start, or the connect retry |
| Discovery.DeviceDiscoveryActivity.OnRowClick | app/src/main/java/com/example/nearshare/DeviceDiscoveryActivity.kt:99-103 | A tap connects in client mode and is ignored in host mode |
| Discovery.DeviceDiscoveryActivity.OnWifiP2pStateEnabled | app/src/main/java/com/example/nearshare/DeviceDiscoveryActivity.kt:179-186 | The radar shows iff Wi-Fi Direct is on; when it is off, "Enable Wi-Fi" is shown |
| Discovery.DeviceDiscoveryActivity.OnPeersAvailable | app/src/main/java/com/example/nearshare/DeviceDiscoveryActivity.kt:188-202 | The client replaces its peers and rows and shows "Found N Devices" when N > 0; the host ignores the list |
| Discovery.DeviceDiscoveryActivity.OnConnectionInfoAvailable | app/src/main/java/com/example/nearshare/DeviceDiscoveryActivity.kt:204-214 | Once a group forms: stop discovery, hand over exactly once with owner flag and address, and finish; otherwise nothing |
| Discovery.DeviceDiscoveryActivity.OnDeviceDisconnected | app/src/main/java/com/example/nearshare/DeviceDiscoveryActivity.kt:216-222 | A disconnect restarts the mode's action |
| Discovery.DeviceDiscoveryActivity.Deliver | app/src/main/java/com/example/nearshare/wifi/DirectBroadcastReceiver.kt:33-56 | Each receiver callback has exactly its handler's effect: the radar, status and effects for the state change; the peers, rows and "Found N Devices" for a client, nothing for a host; stop, hand-over and finish when a group is formed; the mode's action again on disconnect; title, registration and delayed callbacks never change |
| HistoryStore.OptString | app/src/main/java/com/example/nearshare/HistoryRepository.kt:30 | optString: "" for a missing key, the text for a text value |
| HistoryStore.OptLong | app/src/main/java/com/example/nearshare/HistoryRepository.kt:33 | optLong: 0 for a missing key, the number for a number value |
| HistoryStore.ItemOf | app/src/main/java/com/example/nearshare/HistoryRepository.kt:28-36 | An object with no keys loads as an item of empty texts and time 0 |
| HistoryStore.ItemOfObject | app/src/main/java/com/example/nearshare/HistoryRepository.kt:53-59 | An item written as an object reads back as the same item |
| HistoryStore.Parsed | app/src/main/java/com/example/nearshare/HistoryRepository.kt:26-37 | Parsing yields, in order, the item of each element before the first that is not an object, and stops exactly there |
| HistoryStore.Load | app/src/main/java/com/example/nearshare/HistoryRepository.kt:19-42 | A missing key (default "[]") or malformed JSON loads as the empty list |
| HistoryStore.Encoded | app/src/main/java/com/example/nearshare/HistoryRepository.kt:49-63 | One object per item, in order |
| HistoryStore.LoadEncoded | app/src/main/java/com/example/nearshare/HistoryRepository.kt:49-63 | What saveToPrefs stores, getHistory loads back unchanged |
| HistoryStore.MalformedKeepsEarlier | app/src/main/java/com/example/nearshare/HistoryRepository.kt:38-40 | A non-object element stops the load, but the items before it are returned |
| HistoryStore.HistoryRepository.constructor | app/src/main/java/com/example/nearshare/HistoryRepository.kt:9-10 | The repository reads the given preference value |
| HistoryStore.HistoryRepository.GetHistory | app/src/main/java/com/example/nearshare/HistoryRepository.kt:19-42 | The loop returns exactly Load of what is stored |
| HistoryStore.HistoryRepository.SaveToPrefs | app/src/main/java/com/example/nearshare/HistoryRepository.kt:49-63 | The loop stores exactly Encoded of the list |
| HistoryStore.HistoryRepository.SaveItem | app/src/main/java/com/example/nearshare/HistoryRepository.kt:12-17 | The new item loads first, followed by the earlier ones in order; the list grows by one |
| HistoryStore.HistoryRepository.ClearHistory | app/src/main/java/com/example/nearshare/HistoryRepository.kt:44-47 | The key is removed, so the history loads empty |
| HistoryList.IconFor | app/src/main/java/com/example/nearshare/HistoryAdapter.kt:46-50 | Upload icon iff the status is exactly "Sent" |
| HistoryList.ClickTarget | app/src/main/java/com/example/nearshare/HistoryAdapter.kt:53-57 | A tap calls back with the path iff the path is non-empty |
| HistoryList.HistoryAdapter.constructor | app/src/main/java/com/example/nearshare/HistoryAdapter.kt:13 | A new adapter has no items |
| HistoryList.HistoryAdapter.SetList | app/src/main/java/com/example/nearshare/HistoryAdapter.kt:15-19 | After setList the items are exactly the new list |
| HistoryList.HistoryAdapter.ItemCount | app/src/main/java/com/example/nearshare/HistoryAdapter.kt:30 | The count is the number of items |
| HistoryList.HistoryAdapter.Click | app/src/main/java/com/example/nearshare/HistoryAdapter.kt:53-57 | A tap on a row passes that row's path iff it is non-empty |
| HistoryScreen.MimeType | app/src/main/java/com/example/nearshare/HistoryActivity.kt:65-73 | By the text after the last '.', as written: jpg/jpeg/png, pdf, mp4 and mp3 each map to their type, and everything else (no dot included) to */* |
| HistoryScreen.ExtensionAfterDot | app/src/main/java/com/example/nearshare/HistoryActivity.kt:66 | The extension of name + "." + ext is ext, whatever dots the name holds |
| HistoryScreen.CapitalisedUnknown | app/src/main/java/com/example/nearshare/HistoryActivity.kt:66-71 | An extension that starts with a capital is not in the table |
| HistoryScreen.CapitalisedExtensionUnknown | app/src/main/java/com/example/nearshare/HistoryActivity.kt:65-73 | "photo.JPG", like any capitalised extension, opens as */*: the comparison is case-sensitive |
| HistoryScreen.ScreenFor | app/src/main/java/com/example/nearshare/HistoryActivity.kt:77-86 | The list and the clear button show iff there is history; the empty label shows iff there is none; the list and the label never show together |
| HistoryScreen.OpenFile | app/src/main/java/com/example/nearshare/HistoryActivity.kt:42-63 | The viewer opens iff the file exists and the provider accepts it, with the path's MIME type; otherwise the matching toast |
| HistoryScreen.HistoryActivity.constructor | app/src/main/java/com/example/nearshare/HistoryActivity.kt:20-40 | The screen starts with the stored history loaded and laid out |
| HistoryScreen.HistoryActivity.LoadData | app/src/main/java/com/example/nearshare/HistoryActivity.kt:75-87 | The layout follows the loaded history; the adapter is refilled only when it is non-empty |
| HistoryScreen.HistoryActivity.ConfirmClear | app/src/main/java/com/example/nearshare/HistoryActivity.kt:93-97 | Clearing removes the key, shows the empty state, keeps the adapter's old items behind the hidden list, and toasts |
| HistoryScreen.HistoryActivity.OnItemClick | app/src/main/java/com/example/nearshare/HistoryActivity.kt:33-35 | A tap on a row with a path opens it as OpenFile says; a row without a path does nothing |
| TransferList.IsImageFile | app/src/main/java/com/example/nearshare/TransferAdapter.kt:87-90 | True iff the lower-cased path ends with .jpg, .jpeg, .png or .webp |
| TransferList.IsImageFileIgnoresCase | app/src/main/java/com/example/nearshare/TransferAdapter.kt:88 | Upper-casing the path does not change the answer |
| TransferList.ViewType | app/src/main/java/com/example/nearshare/TransferAdapter.kt:22-24 | SENT (1) iff the item is mine, RECEIVED (2) otherwise |
| TransferList.Bind | app/src/main/java/com/example/nearshare/TransferAdapter.kt:43-84 | Exactly one element shows: the image card iff an image file has a path, the file row for other files, the message text otherwise; each shows its own field |
| TransferList.TransferAdapter.constructor | app/src/main/java/com/example/nearshare/TransferAdapter.kt:13 | A new adapter has no items |
| TransferList.TransferAdapter.AddItem | app/src/main/java/com/example/nearshare/TransferAdapter.kt:17-20 | addItem appends at the end and keeps the earlier items |
| TransferList.TransferAdapter.ItemCount | app/src/main/java/com/example/nearshare/TransferAdapter.kt:41 | The count is the number of items |
| TransferList.TransferAdapter.ItemViewType | app/src/main/java/com/example/nearshare/TransferAdapter.kt:22-24 | The row's type is SENT iff its item is mine |
| Chat.FileName | app/src/main/java/com/example/nearshare/ChatAdapter.kt:91-92 | File.name has no '/', and is the whole path when there is none |
| Chat.DocLabelNamesFile | app/src/main/java/com/example/nearshare/ChatAdapter.kt:92 | A document row reads "📄 " and the file's own name, without its folder |
| Chat.ClickMime | app/src/main/java/com/example/nearshare/ChatAdapter.kt:70-93 | Images open as image/*, videos as video/*, documents as application/pdf |
| Chat.SaveMime | app/src/main/java/com/example/nearshare/ChatAdapter.kt:162-170 | The lower-cased extension picks image/jpeg, image/png, video/mp4 or application/pdf; anything else gives */* |
| Chat.SaveMimeIgnoresCase | app/src/main/java/com/example/nearshare/ChatAdapter.kt:163 | Upper-casing the extension does not change the type |
| Chat.Row | app/src/main/java/com/example/nearshare/ChatAdapter.kt:43-96 | Gravity by sender; text view iff TEXT or DOC, image view iff IMAGE or VIDEO; a click opens the file iff it is a document or an existing image or video; the picture for an existing file is its bitmap, thumbnail or icon |
| Chat.UnknownTypeBlank | app/src/main/java/com/example/nearshare/ChatAdapter.kt:58-95 | A message of unknown type shows neither view and reacts to nothing |
| Chat.OneChildShown | app/src/main/java/com/example/nearshare/ChatAdapter.kt:50-95 | Each of the four types shows exactly one of the two views |
| Chat.MissingImageShowsStalePicture | app/src/main/java/com/example/nearshare/ChatAdapter.kt:64-72 | As written, a recycled row bound to a missing image shows the previous message's picture |
| Chat.RowForgetsPrevious | app/src/main/java/com/example/nearshare/ChatAdapter.kt:43-96 | Corrected, everything a bound row shows depends only on the message, never on what the row showed before |
| Chat.ChatViewHolder.constructor | app/src/main/java/com/example/nearshare/ChatAdapter.kt:32-36 | A new holder has no text, no picture and no listeners |
| Chat.ChatAdapter.constructor | app/src/main/java/com/example/nearshare/ChatAdapter.kt:27-30 | The adapter holds the given messages |
| Chat.ChatAdapter.ItemCount | app/src/main/java/com/example/nearshare/ChatAdapter.kt:172 | The count is the number of messages |
| Chat.ChatAdapter.OnBindViewHolder | app/src/main/java/com/example/nearshare/ChatAdapter.kt:43-96 | Binding sets the holder to exactly the corrected Row of its message (a missing file clears the picture; see Left out) |

## Left out

- Threads, handlers and the main looper are not modelled. Posting to the UI is an append to a log, in order. `postDelayed` records the delay and the callback, and `RunDelayed` runs one of them.
- Sockets, files, preferences and the Wi-Fi P2P manager become values and parameters:
  - the incoming bytes and short reads (`Streams.Stream`);
  - whether a file exists or opens;
  - the stored preference value;
  - the answers the manager's listeners receive.
- Session timing is not modelled: the 5-second connect timeout, port 8888, and `System.currentTimeMillis`. `SendReceive.RunSpec` takes the first file's stamp as a parameter. `SendReceive.SendReceiveThread` numbers received files 0, 1, 2, … in place of the clock. Two files stamped in the same millisecond are therefore outside the model.
- Transfer.TransferService.SendName, Transfer.TransferService.SendText and Transfer.TransferService.SendFile: each send runs on its own thread and writes the header, the lengths and the payload as separate calls with no lock. Two overlapping sends, such as the name sent at connect and a user's text, can interleave their bytes on the wire. The model appends each frame whole.
- Transfer.SessionRoundTrip: it assumes the wire holds whole frames one after another (`Transfer.EncodeAll`). It promises nothing when sends overlap.
- Chat.ChatAdapter.OnBindViewHolder: the adapter binds the corrected Row, clearing the picture when an image or video file is missing. As written, the picture of the row's previous message stays in place. That behaviour is stated only by `Chat.Row` with the `AsWritten` binding and `Chat.MissingImageShowsStalePicture`.
- SendReceive.SavedPathsDistinct: distinct paths are proved only for distinct stamps. Two files of one type whose reception starts in the same millisecond get the same path in the source; the second truncates the first and both messages point at it. The model does not promise that a received file is never overwritten.
- Transfer.DownloadPathsDistinct: proves that different names give different path strings, not different files. The file system maps several strings to one file ("a//b" and "a/b", "x/../a" and "a"), and a name holding "../" leaves Downloads. A received file may therefore overwrite another; the model does not capture path normalisation.
- Transfer.TransferService: the class runs only the corrected reading, in which every field is read in full and the file ask is taken in Long arithmetic. The as-written loop exists only as `Transfer.Listen` with the `AsWritten` reading, and the Findings lemmas are stated about it.
- The two read loops do not track short reads after their first pass:
  - `Streams.ReadFully` and `Transfer.FillLoop` keep the stream's remaining short-read sizes as they were.
  - Their results do not depend on them.
- `Transfer.CanCreate` stands for `FileOutputStream` succeeding on a name in Downloads (non-empty and writable). The file system's own rules on names are not modelled.
- A huge length allocates a huge buffer. `OutOfMemoryError` for such lengths is not modelled.
- `SendReceive.NegativeTextLengthEndsSilently`: `ByteArray` with a negative size throws, and that throw is not an `IOException`. The model ends the session with nothing posted; the uncaught exception that then escapes the thread is not modelled.
- `Transfer.TransferService.SendFile`: `statSize` is taken to equal the file's length. The `?: 0` fallback for a missing descriptor is not modelled.
- `Transfer.TransferService.Start`: the name comes from a field. Reading it from the preferences, with the device model as default, is not modelled.
- `Transfer.TransferService.ListenForData`: `isRunning` does not change inside the loop. A `close` from another thread racing the loop is not modelled.
- `HistoryStore.OptLong`: a text value is read as 0. `optLong`'s parsing of numeric text is not modelled.
- The JSON text itself is abstracted to a document of objects. Its serialisation, quoting and the exact malformed inputs are not modelled.
- `Records.Lower` and `Records.Upper` fold ASCII letters only. Kotlin's locale-independent Unicode case mapping is wider.
- Text is modelled as UTF-8 bytes where it crosses the wire. The platform's default charset is taken to be UTF-8, and decoding (malformed sequences becoming U+FFFD) is not modelled.
- `DeviceDiscoveryActivity`:
  - The `requestPeers` and `requestConnectionInfo` answers are assumed to arrive; their callbacks are the screen's methods.
  - The radar animation and toasts' durations are not modelled.
  - The hand-over is recorded as an effect. `TransferActivity` beyond its role choice is not part of this model.
- `HistoryAdapter` does not model its details line: the file size followed by `DateUtils`' relative time.
- `Chat.Row` does not model background colours or the save-to-Downloads dialog; only the MIME table the save uses is modelled. The video thumbnail is an input.

## Findings

| source | as written | input that shows it | evidently intended | confidence | as-written member | corrected member |
|---|---|---|---|---|---|---|
| app/src/main/java/com/example/nearshare/wifi/TransferService.kt:73-74 | Each header field is read with a single `read` call: the header at 74, the lengths and name at 81, 86, 94, 191 and 196, and the size at 201. A read may return fewer bytes than asked, and the rest of the buffer stays zero. | The TEXT frame for "hi" (`54 45 58 54 00 00 00 02 68 69`), with the first read cut to 2 bytes. The header becomes `54 45 00 00`, the remaining bytes are taken for unknown headers, and "hi" is never posted. | Read each field in full, as the TEXT payload loop at 96-102 already does. | not executed | Transfer.ShortHeaderReadLosesText | Transfer.FullHeaderReadKeepsText |
| app/src/main/java/com/example/nearshare/wifi/TransferService.kt:210 | The ask is `minOf(4096, (fileSize - totalRead).toInt())`. `toInt` keeps only the low 32 bits of what is left. | A FILE frame announcing 4 GiB (2^32 bytes): the ask is 0, `read` returns 0 forever, and the loop spins. At 2 GiB (2^31 bytes) the ask is negative: `read` throws and listening ends. | Take the minimum in Long arithmetic first, then convert. | not executed | Transfer.FourGiBFileHangs | Transfer.TransferService.CopyFile |
| app/src/main/java/com/example/nearshare/ChatAdapter.kt:64-72 | For an IMAGE or VIDEO message whose file is missing, the image view is made visible, but its picture is not reset. | A row that showed image A is recycled for an image message whose file was deleted. The row shows A's picture. | Clear the picture, or show a placeholder, when the file is missing. | not executed | Chat.MissingImageShowsStalePicture | Chat.RowForgetsPrevious |
