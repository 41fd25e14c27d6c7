# gadget_play core, modelled in Dafny

This project models the core of the gadget_play repository, a collection of
small hardware experiments. Each core source file has its own module, and
every contract is proved by the verifier. Hardware and the outside world are
inputs: register values, pin levels, I2C answers, notification scripts,
clock readings and image pixels are given as parameters, and the model
records the calls the code would make.

- **Nametag tools** (`nametag/`): a Python driver for a Bluetooth LED name
  badge, modelled in five modules.
  - `NametagProtocol`: the wire encoding. Payloads are cut into 128-byte
    chunks; each chunk gets a header, an XOR check byte, a type byte and a
    length prefix; the frame is escaped, delimited by 0x01 and 0x03 and cut
    into 20-byte packets. The glyph-set payload is modelled too.
  - `NametagLogging`: the log-line formatter.
  - `NametagBluetooth`: the advertisement filter, the choice of device, the
    notification listener, the send/expect exchange and the retrying
    connection.
  - `NametagCapture`: the capture validator, which reassembles and validates
    the messages of a Bluetooth capture.
  - `NametagSend`: the two file formats of the sender.
- **`OkLogging`** (`ok_logging_test/`): the configuration side of a small
  C++ logging library. A config string of `glob=level` entries decides each
  tag's level.
- **`Color`** (`picam/color_test.cpp`): the camera colour tracker's integer
  colour arithmetic, its hue histogram and the hysteresis that picks active
  hues.
- **`FontProof`** (`pixelfont/font_proof.py`): the pixel-font proof sheet
  tool. It cuts glyphs from sheet images, wraps text greedily to a width,
  lays it out and zooms it.
- **DW3000 radio driver:**
  - `Dw3k` and `Dw3kStatics` (`uwb/libraries/dw3k/`, with the status enum
    of `dw3000/lib/dw3k/dw3k.h`): the status machine advanced by polling,
    and the calls that are legal only in some states. `Dw3k` states it as
    functions; `Dw3kStatics.Driver` holds the same state in a class whose
    methods update it in place.
  - `Dw3kUwbTest` and `Dw3kUwbTestStatics`: the variant of the driver in
    `uwb/uwbtest/`.
  - `Dw3kSpi`: that program's SPI transaction framing.
- **`PgCradle` and `PgCradleIo`** (`rp2040/src/pg_cradle.cpp`): the "power
  cradle", covering the expander GPIO pins, the status LEDs, the buttons and
  the bookkeeping of the screen's text lines.
- **`PinTest` and `PinTestLoop`** (`rp2040/src/pintest_main.cpp`): the
  interactive pin tester's key handling and its LED-strip patterns.
- **`Common`**: shared values used by all the modules: bytes, Option and
  Result, XOR folding, fixed-width integer encodings, hex digits and ASCII
  case.

Three facts about the nametag encoder:
- Empty data gives no packets and no error. No payload is rejected for
  being empty.
- The length prefix of a frame is 8 + the chunk length, so it counts the
  type byte.
- `packets_from_data` returns the packets bare. No acknowledgment is
  attached to any packet, and sending chunk by chunk is left to the caller.

## Model

| member | source | states |
|---|---|---|
| NametagProtocol.Escape123 | nametag/nametag/protocol.py:11-15 | `escape123` as written, three `replace` passes; what it computes is stated by EscapeStages, EscapeWellFormed and EscapeRoundTrip |
| NametagProtocol.EscapeStages | nametag/nametag/protocol.py:11-15 | the three successive `replace` passes of `escape123`, 0x02 first, equal escaping each byte on its own (0x01 → 02 05, 0x02 → 02 06, 0x03 → 02 07) |
| NametagProtocol.EscapeOrderMatters | nametag/nametag/protocol.py:12-14 | the order of the passes matters: replacing 0x02 after 0x01 would escape the escape of 0x01 again; as written, 0x01 becomes 02 05 |
| NametagProtocol.EscapeWellFormed | nametag/nametag/protocol.py:11-15 | escaped data holds no 0x01 or 0x03, and every 0x02 in it is followed by 0x05, 0x06 or 0x07 |
| NametagProtocol.EscapeRoundTrip | nametag/nametag/protocol.py:11-15 | unescaping the output of `escape123` gives back exactly the input |
| NametagProtocol.EscapeAppend | nametag/nametag/protocol.py:11-15 | escaping distributes over concatenation |
| NametagProtocol.PacketsFromData | nametag/nametag/protocol.py:10-27 | the chunk loop returns the packets of chunk 0's message, then chunk 1's, and so on; it fails with the `struct` error for data of 65536 bytes or more or a type outside 0..255, and empty data gives no packets and no error |
| NametagProtocol.NextChunk | nametag/nametag/protocol.py:18-25 | one loop iteration appends exactly the 20-byte packets of the current chunk's message |
| NametagProtocol.ChunkCount | nametag/nametag/protocol.py:18 | offset `k * 128` lies inside the data exactly when `k` is a chunk index, so the loop runs once per chunk |
| NametagProtocol.ChunksDone | nametag/nametag/protocol.py:18 | the loop stops after the last chunk: the first offset past the data belongs to index NumChunks |
| NametagProtocol.ChunksCover | nametag/nametag/protocol.py:18-19 | the chunks are consecutive slices; the first `k` of them concatenate to the data up to offset `k * 128` |
| NametagProtocol.AllChunks | nametag/nametag/protocol.py:18-19 | all chunks together are the data, and each holds 1 to 128 bytes |
| NametagProtocol.HeaderLayout | nametag/nametag/protocol.py:20 | the `">xHHB"` header is a zero byte, the big-endian total, the big-endian index and the chunk length, followed by the chunk |
| NametagProtocol.Frame | nametag/nametag/protocol.py:20-23 | the unescaped frame of one chunk; its layout and its parse are stated by FrameLayout and FrameRoundTrip |
| NametagProtocol.FrameLayout | nametag/nametag/protocol.py:20-23 | the frame is a big-endian length of 8 + chunk length, the type, a zero byte, the total, the index, the chunk length, the chunk and a checksum that makes the XOR of everything after the type zero |
| NametagProtocol.FrameRoundTrip | nametag/nametag/protocol.py:20-23 | parsing a frame gives back its type, total, index and chunk |
| NametagProtocol.MessageDelimited | nametag/nametag/protocol.py:24 | a message starts with 0x01, ends with 0x03 and holds no other delimiter |
| NametagProtocol.MessageRoundTrip | nametag/nametag/protocol.py:20-24 | parsing an escaped, delimited message gives back its type, total, index and chunk |
| NametagProtocol.Split20 | nametag/nametag/protocol.py:25 | the 20-byte slices of a message; their sizes and their concatenation are stated by Split20Facts |
| NametagProtocol.Split20Facts | nametag/nametag/protocol.py:25 | the packets of a message are 1 to 20 bytes long, all but the last exactly 20, there are ⌈len/20⌉ of them, and together they are the message |
| NametagProtocol.PacketsInChunkOrder | nametag/nametag/protocol.py:17-27 | the packets of the first `k` chunks, joined, are those chunks' messages in chunk order |
| NametagProtocol.PacketSizes | nametag/nametag/protocol.py:25 | every packet holds 1 to 20 bytes |
| NametagProtocol.EmptyDataNoPackets | nametag/nametag/protocol.py:17-27 | empty data gives no packets for any type, even one `struct` would reject |
| NametagProtocol.Lengths | nametag/nametag/protocol.py:34 | the length table lists each glyph's length, in order |
| NametagProtocol.PadTable | nametag/nametag/protocol.py:32-34 | `"80s"` keeps a table of at most 80 bytes and pads it with zeros to 80 |
| NametagProtocol.HeaderFields | nametag/nametag/protocol.py:31-36 | the `">24xB80sH"` header: 24 zero bytes, the count, the lengths then zeros up to byte 105, and the big-endian total |
| NametagProtocol.GlyphErrors | nametag/nametag/protocol.py:31-36 | a glyph of 256 bytes or more fails first; otherwise the payload exists exactly when there are fewer than 256 glyphs with fewer than 65536 bytes in all |
| NametagProtocol.GlyphPayloadOk | nametag/nametag/protocol.py:31-37 | with at most 80 glyphs of under 256 bytes and under 65536 in all, the payload is the header followed by the joined glyphs |
| NametagProtocol.GlyphHeaderLayout | nametag/nametag/protocol.py:31-37 | the same payload byte by byte: 24 zeros, the count, every length in order, zeros, the total, then the glyphs |
| NametagProtocol.ConcatLength | nametag/nametag/protocol.py:35-37 | the total in the header is the length of the joined glyphs |
| NametagProtocol.PacketsFromGlyphs | nametag/nametag/protocol.py:30-37 | header errors propagate; otherwise the packets are those `packets_from_data` makes from type 2 and the payload |
| NametagLogging.Format | nametag/nametag/logging.py:7-30 | `_LogFormatter.format`; its result for each combination of texts is stated by PlainRecord, BlankRecord, ExceptionOnly, StackOnly and ExtraText |
| NametagLogging.MessageParts | nametag/nametag/logging.py:8-11 | the message is its leading whitespace, its stripped core and its trailing whitespace, and both ends are whitespace only |
| NametagLogging.Marker | nametag/nametag/logging.py:14-23 | every level marker starts with a non-space character and ends in a space |
| NametagLogging.MarkerChoice | nametag/nametag/logging.py:14-23 | exactly one marker, by the thresholds in order: below INFO the web, CRITICAL and up the explosion, ERROR and up the fire, WARNING and up the warning sign, otherwise the information sign |
| NametagLogging.PlainRecord | nametag/nametag/logging.py:7-30 | with no exception or stack text and a non-blank message, the result is the marker, `name: ` for a non-root logger and the stripped message, between the message's own leading and trailing whitespace |
| NametagLogging.BlankRecord | nametag/nametag/logging.py:7-30 | a blank root message at INFO becomes its own whitespace followed by the bare marker: the final `strip` also takes the marker's trailing space |
| NametagLogging.InfoMarkerStripped | nametag/nametag/logging.py:23-30 | stripping the INFO marker drops its trailing space and nothing else |
| NametagLogging.TwoExtras | nametag/nametag/logging.py:26-29 | exception text and stack text, each ending in non-whitespace, come out whole after the stripped line, one newline before each |
| NametagLogging.ExtraText | nametag/nametag/logging.py:7-30 | with both texts present the result is the leading whitespace, the stripped marked line, a newline and the exception text, a newline and the stack text, then the trailing whitespace |
| NametagLogging.OneExtra | nametag/nametag/logging.py:26-29 | one text, ending in non-whitespace, appended to a line that starts with non-whitespace comes out whole after the stripped line and a newline |
| NametagLogging.ExceptionOnly | nametag/nametag/logging.py:7-30 | with exception text only, the result is the leading whitespace, the stripped marked line, a newline, the exception text and the trailing whitespace |
| NametagLogging.StackOnly | nametag/nametag/logging.py:7-30 | with stack text only, the result is the leading whitespace, the stripped marked line, a newline, the stack text and the trailing whitespace |
| NametagLogging.StripSolid | nametag/nametag/logging.py:30 | a `strip` of text that starts and ends with non-whitespace changes nothing |
| NametagLogging.StripMarked | nametag/nametag/logging.py:27-30 | a marked line that ends in non-whitespace survives the final `strip` whole |
| Common.StripLeftDrops | nametag/nametag/logging.py:9 | `lstrip` leaves a suffix of the text and drops whitespace only |
| Common.StripRightDrops | nametag/nametag/logging.py:10 | `rstrip` leaves a prefix of the text and drops whitespace only |
| NametagBluetooth.FirstOfType | nametag/nametag/bluetooth.py:102-103 | the `next(...)` generator finds a value exactly when some field has the type, and then it is the first such field's value |
| NametagBluetooth.DeviceCode | nametag/nametag/bluetooth.py:108 | the code is the second and first bytes of the manufacturer data, swapped and upper-cased |
| NametagBluetooth.Scan | nametag/nametag/bluetooth.py:96-115 | the scan loop returns the nametags among the advertisements in scan order, and a scanner exception becomes a Bluetooth error |
| NametagBluetooth.NametagsStep | nametag/nametag/bluetooth.py:100-110 | one loop iteration appends the current advertisement's device when it is a nametag, and nothing otherwise |
| NametagBluetooth.NametagSuffix | nametag/nametag/bluetooth.py:107 | `mfgr[-8:] == "0222ffff"` holds exactly when the text has at least 8 characters and ends in "0222ffff" |
| NametagBluetooth.DeviceFilter | nametag/nametag/bluetooth.py:101-110 | a device is kept exactly when it advertises a name and manufacturer data, the name is "CoolLED" and the data ends in "0222ffff"; it is then recorded with its address, its code and its RSSI |
| NametagBluetooth.NametagsComplete | nametag/nametag/bluetooth.py:100-112 | every listed device comes from some advertisement, and every nametag advertisement is listed |
| NametagBluetooth.NormalCode | nametag/nametag/bluetooth.py:137 | `code and code.upper()` keeps a missing or empty code absent and upper-cases a given one |
| NametagBluetooth.Matching | nametag/nametag/bluetooth.py:138 | the matching devices are those whose code equals the given code, or all devices when no code is given |
| NametagBluetooth.Resolve | nametag/nametag/bluetooth.py:125-147 | the choice of address; stated by ResolveGiven, ResolveByScan, ResolveCodeCase and PinnedAddress |
| NametagBluetooth.ResolveGiven | nametag/nametag/bluetooth.py:125-151 | a given address is used without scanning |
| NametagBluetooth.ResolveByScan | nametag/nametag/bluetooth.py:125-147 | without an address: an empty scan, no match and several matches are the three errors, and otherwise the only matching device's address is used |
| NametagBluetooth.ResolveCodeCase | nametag/nametag/bluetooth.py:137-138 | the code asked for is compared ignoring its case |
| NametagBluetooth.CharsWithUuid | nametag/nametag/bluetooth.py:25-26 | the characteristics found are exactly those with the UUID asked for |
| NametagBluetooth.DescriptorsWithUuid | nametag/nametag/bluetooth.py:32 | the descriptors found are exactly those with the UUID asked for |
| NametagBluetooth.SetupIff | nametag/nametag/bluetooth.py:21-44 | set-up succeeds exactly when the service has one FFF1 characteristic, it has one 0x2902 descriptor and writing 01 00 to it succeeds; the link then listens on that characteristic's handle |
| NametagBluetooth.SetupCounts | nametag/nametag/bluetooth.py:27-35 | set-up fails when there is not exactly one FFF1 characteristic, or not exactly one 0x2902 descriptor on it, and the error carries the count found, as the intended message `SetupMessage` shows it (see Left out and the set-up message finding) |
| NametagBluetooth.Setup | nametag/nametag/bluetooth.py:21-44 | `Connection.__init__`; its outcomes are stated by `SetupIff` and `SetupCounts` |
| NametagBluetooth.SetupMessageAsWritten | nametag/nametag/bluetooth.py:27-35 | the two set-up messages as written, plain literals holding `{len(chars)}` and `{len(descriptors)}`; stated by `SetupMessageHidesCount` |
| NametagBluetooth.SetupMessageHidesCount | nametag/nametag/bluetooth.py:27-35 | as written, the message is the same whatever count was found, for either complaint |
| NametagBluetooth.DecimalText | nametag/nametag/bluetooth.py:27-35 | `str(n)` of the intended f-strings: at least one character, all decimal digits |
| NametagBluetooth.DecimalRoundTrip | nametag/nametag/bluetooth.py:27-35 | reading the decimal text back gives the count |
| NametagBluetooth.SetupMessage | nametag/nametag/bluetooth.py:27-35 | the corrected half: "Found ", the count, then the complaint; stated by `SetupMessageShowsCount` |
| NametagBluetooth.SetupMessageShowsCount | nametag/nametag/bluetooth.py:27-35 | two set-up errors give the same intended message exactly when they are the same complaint with the same count |
| NametagBluetooth.SetupMessageTwo | nametag/nametag/bluetooth.py:27-28 | with two FFF1 characteristics the intended message shows the digit 2 after "Found " |
| NametagBluetooth.Notify | nametag/nametag/bluetooth.py:80-87 | a notification on the listener's handle adds its data and the wildcard; any other handle changes nothing |
| NametagBluetooth.DeliverFacts | nametag/nametag/bluetooth.py:80-87 | notifications only ever add to the received set, the wildcard arrives with the first notification on the own handle, and everything received was notified on that handle |
| NametagBluetooth.WildcardMeansAny | nametag/nametag/bluetooth.py:51-85 | after a clear, the wildcard is received exactly when some notification on the own handle has arrived |
| NametagBluetooth.Listener.HandleNotification | nametag/nametag/bluetooth.py:80-87 | the listener's received set becomes what `Notify` gives |
| NametagBluetooth.Listener.Clear | nametag/nametag/bluetooth.py:51 | the received set is emptied |
| NametagBluetooth.ExpectLoop | nametag/nametag/bluetooth.py:56-70 | the wait for one expectation; stated by ExpectLoopFacts |
| NametagBluetooth.PairStep | nametag/nametag/bluetooth.py:48-70 | one send and its wait; stated by PairStepFacts |
| NametagBluetooth.Exchange | nametag/nametag/bluetooth.py:46-70 | the whole exchange on one connection; stated by ExchangeWrites and implemented by Connection.SendAndExpect |
| NametagBluetooth.ExpectLoopFacts | nametag/nametag/bluetooth.py:56-70 | waiting for one expectation writes nothing, ends only once the expectation has been received, and reports a timeout only after a clock reading more than `timeout` past the start |
| NametagBluetooth.ExchangeWrites | nametag/nametag/bluetooth.py:48-55 | a completed exchange wrote exactly the non-empty sends, in order |
| NametagBluetooth.PairStepFacts | nametag/nametag/bluetooth.py:48-70 | after each pair the received set is empty or holds the wildcard, and a pair with an expectation completes only once it has been received |
| NametagBluetooth.Connection.SendAndExpect | nametag/nametag/bluetooth.py:46-70 | the method's outcome, received set, writes and remaining input are exactly what the exchange function gives for the same pairs |
| NametagBluetooth.Connection.constructor | nametag/nametag/bluetooth.py:21-44 | a new connection listens on the link's handle with an empty received set and has written nothing yet |
| NametagBluetooth.RetryConnection.constructor | nametag/nametag/bluetooth.py:162-171 | the first attempt connects when resolution and set-up succeed; otherwise it logs one warning and has no connection |
| NametagBluetooth.RetryConnection.ConnectIfNecessary | nametag/nametag/bluetooth.py:192-196 | a live connection is kept; otherwise a successful resolution and set-up connects and pins the address, and a failure is returned with nothing connected |
| NametagBluetooth.RetryConnection.SendAndExpect | nametag/nametag/bluetooth.py:173-190 | the outcome, the connection left, the closes and warnings (one of each per failed attempt) and the exchanges handed out are those of `Retry` on the attempts, which `RetryFacts` describes |
| NametagBluetooth.RetryConnection.TryAttempt | nametag/nametag/bluetooth.py:176-190 | one pass of the loop body and the common part of its handler: the error caught is `TryOnce`'s, the pairs go to a connection exactly when there is one, and a failure drops the connection, closes the exit stack and logs once |
| NametagBluetooth.ResolveErr | nametag/nametag/bluetooth.py:125-147 | a resolution fails only through the scan: its error is the one a scan without an address gives |
| NametagBluetooth.TryOnceFacts | nametag/nametag/bluetooth.py:176-183 | an attempt that catches an error catches one it raises and is left without a connection; one that catches none handed the pairs to a live connection whose exchange succeeded; a pinned address stays |
| NametagBluetooth.TryOnce | nametag/nametag/bluetooth.py:176-183 | one pass of the `while True` body and its handler; stated by `TryOnceFacts` |
| NametagBluetooth.RetryFacts | nametag/nametag/bluetooth.py:173-190 | every failed attempt before the last one tried raised its recorded error and was not past the timeout; the loop returns after the first attempt whose exchange succeeds, still connected; it gives up with the error of the first failure past a set timeout, unconnected; otherwise it fails every attempt; a pinned address never changes |
| NametagBluetooth.Retry | nametag/nametag/bluetooth.py:173-190 | the retry loop on values; stated by `RetryFacts` and `RetryForever`, and `RetryConnection.SendAndExpect` is proved equal to it |
| NametagBluetooth.RetryForever | nametag/nametag/bluetooth.py:185 | with the timeout `None` or 0 the wrapper never gives up |
| NametagBluetooth.PinnedAddress | nametag/nametag/bluetooth.py:196 | once an address is pinned, every later connection goes to it, whatever a scan would say |
| NametagBluetooth.Listener.constructor | nametag/nametag/bluetooth.py:74-78 | a new listener has its handle and an empty received set |
| NametagBluetooth.Nametags | nametag/nametag/bluetooth.py:100-110 | the loop keeps at most one device per advertisement |
| NametagCapture.Fields | nametag/tools/btsnoop_tshark_extract.py:37 | `split(":")` gives at least one field, and no field holds a colon |
| NametagCapture.FieldsJoin | nametag/tools/btsnoop_tshark_extract.py:37 | joining the fields with colons gives back the text |
| NametagCapture.FieldsAppend | nametag/tools/btsnoop_tshark_extract.py:37 | splitting text joined at a colon gives the fields of each side |
| NametagCapture.FieldsNoColon | nametag/tools/btsnoop_tshark_extract.py:37 | text without a colon is a single field |
| NametagCapture.HexValue | nametag/tools/btsnoop_tshark_extract.py:37 | `int(h, 16)` of `n` digits is below 16^n |
| NametagCapture.FieldByte | nametag/tools/btsnoop_tshark_extract.py:37 | a field becomes a byte only when it reads as hexadecimal, and the byte is its value |
| NametagCapture.ParseHexAppend | nametag/tools/btsnoop_tshark_extract.py:37 | the text on either side of a colon parses on its own, and a failure on either side fails the whole |
| NametagCapture.EmptyFieldsSkipped | nametag/tools/btsnoop_tshark_extract.py:37 | `if h` drops empty fields: empty text and a lone colon give no bytes |
| NametagCapture.HexValueTwo | nametag/tools/btsnoop_tshark_extract.py:37 | two hexadecimal digits have the value 16 × first + second |
| NametagCapture.SingleField | nametag/tools/btsnoop_tshark_extract.py:37 | a colon-free field that reads as a byte parses to that one byte |
| NametagCapture.ParseHex | nametag/tools/btsnoop_tshark_extract.py:37 | `bytes(int(h, 16) for h in hexstr.split(":") if h)`, or None when a field is not a byte; stated by `ParseHexAppend`, `EmptyFieldsSkipped`, `SingleField` and `FormatParses` |
| NametagCapture.Hex2Parses | nametag/tools/btsnoop_tshark_extract.py:37 | the two-digit hexadecimal form of a byte parses back to the byte |
| NametagCapture.FormatParses | nametag/tools/btsnoop_tshark_extract.py:37 | the parser reads back any colon-separated hexadecimal text of bytes, as tshark prints `btatt.value` |
| NametagCapture.Grouped | nametag/tools/btsnoop_tshark_extract.py:26-38 | a grouping stops only at one of the writes |
| NametagCapture.GroupedErr | nametag/tools/btsnoop_tshark_extract.py:27-38 | grouping fails at the first well-formed write whose hexadecimal text does not parse, and succeeds when there is none |
| NametagCapture.GroupedTargets | nametag/tools/btsnoop_tshark_extract.py:26-45 | each target appears once, in order of its first write, and the listed targets are exactly the dictionary's keys |
| NametagCapture.GroupedTargetsWritten | nametag/tools/btsnoop_tshark_extract.py:29-38 | the targets are exactly those some write not marked malformed went to |
| NametagCapture.GroupedPackets | nametag/tools/btsnoop_tshark_extract.py:29-38 | each target's list is its well-formed writes, decoded, in capture order |
| NametagCapture.WritesToAbsent | nametag/tools/btsnoop_tshark_extract.py:29-38 | a target without a list had no well-formed writes |
| NametagCapture.GroupedPrefixErr | nametag/tools/btsnoop_tshark_extract.py:27-38 | an exception on a write ends the loop: the failure of a prefix is the failure of the whole capture |
| NametagCapture.Classify | nametag/tools/btsnoop_tshark_extract.py:54-69 | the validation of one message; stated by ClassifyFound |
| NametagCapture.ClassifyFound | nametag/tools/btsnoop_tshark_extract.py:54-69 | a message is found exactly when it has at least six bytes, starts 01 00 ?? 02, ends in 03 and its next-to-last byte is the XOR of the bytes from index 4 up to it; the start is bad exactly when the first test fails |
| NametagCapture.ReassembleTarget | nametag/tools/btsnoop_tshark_extract.py:46-77 | the inner loop produces exactly the target's reports: one per run of writes closed by one shorter than 20 bytes, then a partial message if bytes remain |
| NametagCapture.Extract | nametag/tools/btsnoop_tshark_extract.py:26-77 | a parse failure stops everything; otherwise every target gets its reports, in the order of its first write |
| NametagCapture.CutClosed | nametag/tools/btsnoop_tshark_extract.py:47-52 | every closed run is 20-byte writes ended by one that is not 20 bytes |
| NametagCapture.CutOpen | nametag/tools/btsnoop_tshark_extract.py:47-50 | the run still open holds only 20-byte writes |
| NametagCapture.CutConcat | nametag/tools/btsnoop_tshark_extract.py:47-52 | the runs laid end to end are the target's writes |
| NametagCapture.Feed | nametag/tools/btsnoop_tshark_extract.py:46-74 | one write of the reassembly; stated through FeedAll |
| NametagCapture.FeedAll | nametag/tools/btsnoop_tshark_extract.py:46-74 | the reassembly of a target's writes; stated by FeedAllOpen, FeedAllReports and ReportsCoverData |
| NametagCapture.FeedAllOpen | nametag/tools/btsnoop_tshark_extract.py:46-52 | the buffer holds the open run's bytes and its start is that run's first write's time |
| NametagCapture.FeedAllReports | nametag/tools/btsnoop_tshark_extract.py:46-74 | the loop reports exactly one message per closed run, with that run's bytes, its first write's time as start and its last write's time |
| NametagCapture.ReportsCoverData | nametag/tools/btsnoop_tshark_extract.py:46-77 | the reported messages and the partial buffer, laid end to end, are every byte the target was sent |
| NametagSend.Clean | nametag/tools/send.py:36-49 | a cleaned line is no longer than the line and holds no colon |
| NametagSend.ColonsToSpaces | nametag/tools/send.py:36-49 | `replace(":", " ")` turns every colon into a space and keeps every other character |
| NametagSend.FromHex | nametag/tools/send.py:40-51 | `bytes.fromhex` succeeds only with at least two characters per byte |
| NametagSend.LoadPackets | nametag/tools/send.py:33-42 | the `--packets` loop gives exactly the loader function's result: the packet list, or the index of the first line that is not hexadecimal |
| NametagSend.LoadStep | nametag/tools/send.py:35-42 | one loader step on a classified line; stated by RenderStep, RenderBlank and RenderData |
| NametagSend.LoadAll | nametag/tools/send.py:33-42 | the `--packets` loader; stated by LoadAllStep, LoadIsParagraphs, LoadedPackets and LoadErr |
| NametagSend.LoadAllStep | nametag/tools/send.py:35-42 | one more line fails if it is not hexadecimal and otherwise applies one loader step |
| NametagSend.CutLast | nametag/tools/send.py:41-42 | the `while` loop replaces the last packet by its cut into 20-byte pieces and keeps the others |
| NametagSend.LoadErrPrefix | nametag/tools/send.py:35-42 | a bad line ends loading: the failure of a prefix is the failure of the whole file |
| NametagSend.Cut20Append | nametag/tools/send.py:40-42 | data appended to a packet that was already cut only refills its last piece |
| NametagSend.Cut20Facts | nametag/tools/send.py:41-42 | the pieces hold at most 20 bytes, all but the last exactly 20, join to the packet, and the last is empty only when the packet is |
| NametagSend.LoadIsParagraphs | nametag/tools/send.py:33-42 | the loader fails at the same line as the paragraph reading, and otherwise its packets are every paragraph cut into 20-byte pieces: a blank line opens a packet only after data |
| NametagSend.ParagraphsOf | nametag/tools/send.py:37-40 | no finished paragraph is empty |
| NametagSend.Gather | nametag/tools/send.py:37-40 | taking a line keeps every finished paragraph non-empty |
| NametagSend.GatherData | nametag/tools/send.py:37-40 | taking a line appends its data, and only that, to the paragraphs laid end to end |
| NametagSend.RenderStep | nametag/tools/send.py:37-42 | one loader step on the rendered packets is the rendering of the paragraphs after that line |
| NametagSend.RenderBlank | nametag/tools/send.py:38 | a blank line adds an empty packet exactly when the last packet has data, which closes the open paragraph |
| NametagSend.RenderData | nametag/tools/send.py:40-42 | a data line refills the last packet and cuts it again, which extends the open paragraph |
| NametagSend.ParagraphsData | nametag/tools/send.py:35-40 | the paragraphs laid end to end are the decoded data lines in file order |
| NametagSend.PiecesFacts | nametag/tools/send.py:41-42 | cutting non-empty paragraphs gives pieces of 1 to 20 bytes that join to the paragraphs |
| NametagSend.LoadedPackets | nametag/tools/send.py:33-42 | every loaded packet has at most 20 bytes, only the last can be empty, and laid end to end they are the decoded data of the file |
| NametagSend.LoadErr | nametag/tools/send.py:35-40 | loading fails at the first line whose text is not hexadecimal, and succeeds only when every line is blank, a comment or hexadecimal |
| NametagSend.GlyphLines | nametag/tools/send.py:48-50 | only non-blank cleaned lines become glyphs |
| NametagSend.LoadGlyphs | nametag/tools/send.py:46-51 | every non-blank line decodes to one glyph, in order; a line that does not decode, a comment line included, is the error |
| NametagSend.GlyphPackets | nametag/tools/send.py:44-53 | a bad line is reported; otherwise the packets, or the encoding error, are what `packets_from_glyphs` gives for the decoded glyphs |
| OkLogging.Rank | ok_logging_test/src/ok_logging.h:7-12 | the four levels are ordered SPAM < NOTE < PROBLEM < FATAL, as the enumeration numbers them |
| OkLogging.FirstOf | ok_logging_test/src/ok_logging.cpp:67-70 | the position found lies in `[p, end]`, and before `end` it holds a character of the set |
| OkLogging.FirstOfIsFirst | ok_logging_test/src/ok_logging.cpp:67-70 | no character before the position found is in the set |
| OkLogging.NextOf | ok_logging_test/src/ok_logging.cpp:67-70 | the loop of `next_of` stops at the first character of the set, or at `end` |
| OkLogging.CaseEqLower | ok_logging_test/src/ok_logging.cpp:77 | `strncasecmp` equality is equality after ASCII lower-casing |
| OkLogging.EarliestFound | ok_logging_test/src/ok_logging.cpp:87-90 | the earliest occurrence of a glob segment is an occurrence, at or after the search start |
| OkLogging.EarliestIsFirst | ok_logging_test/src/ok_logging.cpp:87-90 | no occurrence comes before the earliest one |
| OkLogging.SegmentEnd | ok_logging_test/src/ok_logging.cpp:76-84 | a segment ends at the next '*' or at the end of the glob |
| OkLogging.SearchSegment | ok_logging_test/src/ok_logging.cpp:87-90 | the inner loop finds the segment's earliest occurrence from the current position that still fits, or fails |
| OkLogging.GlobMatch | ok_logging_test/src/ok_logging.cpp:72-97 | `glob_match` returns the greedy matching function's answer |
| OkLogging.MatchRest | ok_logging_test/src/ok_logging.cpp:81-96 | the middle loop and the suffix test give the greedy match of the remaining segments |
| OkLogging.Greedy | ok_logging_test/src/ok_logging.cpp:72-97 | the greedy segment matching of `glob_match`; stated by GreedyFound, GreedyMissing, GreedyIsSound and GreedyIsComplete |
| OkLogging.GreedyFound | ok_logging_test/src/ok_logging.cpp:82-90 | after a segment found at its earliest occurrence, matching goes on right after it |
| OkLogging.GreedyMissing | ok_logging_test/src/ok_logging.cpp:88-89 | a segment that does not occur fails the match |
| OkLogging.PlacedEarlier | ok_logging_test/src/ok_logging.cpp:72-97 | a placement of the segments that starts later can also start earlier |
| OkLogging.GreedyIsSound | ok_logging_test/src/ok_logging.cpp:72-97 | every greedy match is a placement of the segments in order |
| OkLogging.GreedyIsComplete | ok_logging_test/src/ok_logging.cpp:72-97 | taking each segment at its earliest occurrence loses no placement |
| OkLogging.GlobMatchIsGlob | ok_logging_test/src/ok_logging.cpp:72-97 | `glob_match` holds exactly when the tag is the prefix, then each middle segment in order, then the suffix, with anything between, ignoring case |
| OkLogging.NoStarIsPrefix | ok_logging_test/src/ok_logging.cpp:76-78 | a glob without '*' matches exactly the tags it starts, ignoring case |
| OkLogging.PrefixRequired | ok_logging_test/src/ok_logging.cpp:75-77 | the text before the first '*' must start the tag |
| OkLogging.StarMatchesAll | ok_logging_test/src/ok_logging.cpp:72-97 | the glob "*" matches every tag |
| OkLogging.SuffixRequired | ok_logging_test/src/ok_logging.cpp:93-96 | the text after the last '*' must end the tag |
| OkLogging.SkipSpace | ok_logging_test/src/ok_logging.cpp:100 | the first loop of `trim` stops within bounds, at a character that is not a space, tab or newline |
| OkLogging.SkipSpaceSkips | ok_logging_test/src/ok_logging.cpp:100 | everything it skips is a space, tab or newline |
| OkLogging.BackSpace | ok_logging_test/src/ok_logging.cpp:101 | the second loop stops within bounds, after a character that is not a space, tab or newline |
| OkLogging.BackSpaceDrops | ok_logging_test/src/ok_logging.cpp:101 | everything it drops is a space, tab or newline |
| OkLogging.Trim | ok_logging_test/src/ok_logging.cpp:99-102 | `trim` narrows the range within its bounds past leading and trailing space, tab and newline, and a non-empty result starts and ends with something else |
| OkLogging.LevelForName | ok_logging_test/src/ok_logging.cpp:104-137 | a name of no group is reported, once, and gives SPAM; a known name reports nothing; FATAL needs a FATAL name |
| OkLogging.NameCaseInsensitive | ok_logging_test/src/ok_logging.cpp:105-107 | the level does not depend on the case of the name |
| OkLogging.PIsProblem | ok_logging_test/src/ok_logging.cpp:124-129 | "p" (either case) is PROBLEM: it is tried before the FATAL group, whose "p" is never reached |
| OkLogging.FatalNames | ok_logging_test/src/ok_logging.cpp:129-131 | FATAL is reached exactly through "none", "f", "fatal" and "panic" |
| OkLogging.WholeNamesOnly | ok_logging_test/src/ok_logging.cpp:105-136 | names must match whole: "war" is reported and gives SPAM |
| OkLogging.EntryAt | ok_logging_test/src/ok_logging.cpp:147-157 | an entry lies within the config and ends at the first ',' or ';' after its start |
| OkLogging.Entries | ok_logging_test/src/ok_logging.cpp:145-167 | the entries start with the one at the start position |
| OkLogging.EntriesChained | ok_logging_test/src/ok_logging.cpp:145-167 | the entries are in turn: the first starts the config, only the last ends it, and each next one starts after the separator ending the one before |
| OkLogging.EntryCount | ok_logging_test/src/ok_logging.cpp:146-167 | a config with `n` separators has `n + 1` entries, counting the empty ones |
| OkLogging.TagMatcher | ok_logging_test/src/ok_logging.cpp:162 | the glob test of each entry is `glob_match` against the tag |
| OkLogging.SearchIn | ok_logging_test/src/ok_logging.cpp:146-167 | a found entry is one of the entries searched |
| OkLogging.FirstMatchWins | ok_logging_test/src/ok_logging.cpp:158-164 | the search stops at entry `k` exactly when `k` is well formed, matches, and no earlier entry does |
| OkLogging.NoMatchFindsNothing | ok_logging_test/src/ok_logging.cpp:158-166 | the search finds nothing exactly when no entry matches |
| OkLogging.GoodEntriesQuiet | ok_logging_test/src/ok_logging.cpp:158-161 | without bad entries nothing is reported |
| OkLogging.ReadEntry | ok_logging_test/src/ok_logging.cpp:147-157 | the parsing at the top of the loop reads the entry at the position |
| OkLogging.LevelForTag | ok_logging_test/src/ok_logging.cpp:139-169 | `level_for_tag` gives the specification's level and reports: NOTE for a null config, otherwise the level named by the first matching entry, or NOTE, with the bad entries before it reported |
| OkLogging.FindEntry | ok_logging_test/src/ok_logging.cpp:146-168 | the loop finds the first matching entry if any, and reports exactly the bad entries the search passes |
| OkLogging.Examine | ok_logging_test/src/ok_logging.cpp:158-167 | one round reports a bad entry, stops at a matching one, and otherwise goes on to the next entry with the search unchanged |
| OkLogging.TagMatches | ok_logging_test/src/ok_logging.cpp:162 | the `glob_match` call is the search's glob test on the entry's glob |
| OkLogging.NullConfig | ok_logging_test/src/ok_logging.cpp:140 | a null config gives NOTE without reports |
| OkLogging.EmptyConfig | ok_logging_test/src/ok_logging.cpp:143-166 | an empty config is one empty entry: it is reported as bad and the level is NOTE |
| OkLogging.LevelOfTag | ok_logging_test/src/ok_logging.cpp:162-163 | the level is the one named by the first entry whose glob matches the tag |
| OkLogging.NoMatchIsNote | ok_logging_test/src/ok_logging.cpp:166 | without a matching entry the level is NOTE |
| OkLogging.TrailingSeparator | ok_logging_test/src/ok_logging.cpp:147-167 | a config ending in ',' or ';' ends in an empty entry, which is bad |
| OkLogging.LastReported | ok_logging_test/src/ok_logging.cpp:158-166 | when no entry matches, the last entry's complaint is the last report |
| OkLogging.TrailingSeparatorReported | ok_logging_test/src/ok_logging.cpp:139-169 | with a trailing separator and no match, the empty entry is the last report and the level is NOTE |
| OkLogging.EmitRules | ok_logging_test/src/ok_logging.h:34-35 | `OK_REPORT` always emits FATAL, emits SPAM only where the tag's level is SPAM, and with a null config emits all but SPAM |
| Color.CDiv | picam/color_test.cpp:40-42 | C++ `/` truncates toward zero: the quotient of a negative numerator is minus that of its negation |
| Color.CDivBound | picam/color_test.cpp:40-42 | `60 * x / (M - m)` with `x` no larger than the spread lies within ±60 |
| Color.Hue | picam/color_test.cpp:39-44 | the hue is in [0, 360): 180-300 when blue is largest, 60-180 when green is and blue is not, and otherwise within 60 of red at 0 |
| Color.ToHCV | picam/color_test.cpp:31-49 | a gray pixel gives (0, 0, its level); otherwise the hue is in [0, 360), the chroma is the spread of the channels and the value the largest, so the `CHECK_LOGIC` tests always pass |
| Color.CyanHue | picam/color_test.cpp:40-41 | blue is tested before green: a pixel with green and blue equal and largest gets hue 180 |
| Color.Zig | picam/color_test.cpp:58-59 | `Z` lies in [0, 60], as `CHECK_LOGIC` asks |
| Color.Second | picam/color_test.cpp:60 | `X = c * Z / 60` is at most `c` |
| Color.ToRGB | picam/color_test.cpp:51-78 | a hue outside [0, 360) is rejected; otherwise the largest channel is max(c, v), the smallest is max(0, v - c), and the sector `h / 60` orders the three channels |
| Color.RoundTripKeepsExtremes | picam/color_test.cpp:31-78 | converting to HCV and back keeps a pixel's largest and smallest channels |
| Color.GrayRoundTrip | picam/color_test.cpp:36-78 | a gray pixel comes back unchanged |
| Color.ToBucketAsWritten | picam/color_test.cpp:80-83 | `to_bucket` as written wraps a negative hue, rounds to the nearest step modulo 360 and truncates to `uint8_t`, so the result is below 256 |
| Color.BucketTruncated | picam/color_test.cpp:80-94 | with a step of 1 the spectrum has 360 buckets but hue 300 lands in bucket 44 |
| Color.ToBucket | picam/color_test.cpp:80-94 | a bucket number kept whole always names one of the spectrum's buckets |
| Color.BucketsAgree | picam/color_test.cpp:80-83 | for a step of at least 2 (the default is 5) the truncation never changes the bucket |
| Color.BucketWraps | picam/color_test.cpp:81-82 | the bucket depends only on the hue modulo 360, negative hues included |
| Color.ToHue | picam/color_test.cpp:85-88 | `to_hue` accepts exactly `0 <= b` with `b * step < 360` and returns `b * step` |
| Color.BucketHasHue | picam/color_test.cpp:85-94 | every bucket of the spectrum has a hue |
| Color.BucketOfHue | picam/color_test.cpp:80-88 | a bucket's hue falls back into that bucket while the rounding half-step stays below 360 |
| Color.Next | picam/color_test.cpp:101-129 | `(b + 1) % size` steps to the next bucket, wrapping to 0 after the last |
| Color.CoversStep | picam/color_test.cpp:98-130 | each step of a wrapping bucket loop adds the bucket stepped over to the covered range, and the steps left decrease, so the loop ends on its end bucket |
| Color.Count | picam/color_test.cpp:95-105 | a bucket counts no more pixels than there are |
| Color.MakeSpectrum | picam/color_test.cpp:90-108 | the spectrum has one entry per bucket, and bucket `k` counts the pixels of chroma at least `min_c` whose range, from the bucket of `h - h_merge` up to that of `h + h_merge + h_step`, covers `k`, with bucket numbers kept whole (see Left out) |
| Color.Spread | picam/color_test.cpp:98-104 | the inner loop adds one to every bucket of the wrapping range from `start` up to, but not including, `end`, and leaves the others |
| Color.UpdateActive | picam/color_test.cpp:110-143 | the result has one flag per bucket, each as the hysteresis rules decide, with the keepout windows in bucket numbers kept whole (see Left out) |
| Color.ScanKeepout | picam/color_test.cpp:126-139 | the keepout loop clears `b` exactly when no bucket of its window was active before, is stronger, or is as strong and earlier |
| Color.Active | picam/color_test.cpp:116-140 | the new flag of one bucket; stated by Hysteresis and KeepoutExclusive |
| Color.Hysteresis | picam/color_test.cpp:116-140 | a bucket at or below `off_f` is off; an active bucket above `off_f` stays on; an inactive one stays off below `on_f` and turns on at or above it exactly when its keepout window is clear |
| Color.KeepoutExclusive | picam/color_test.cpp:131-135 | two buckets within each other's keepout windows never both turn on in one update |
| FontProof.NewlineFrom | pixelfont/font_proof.py:263 | the first newline at or after a position, with none before it |
| FontProof.SplitLines | pixelfont/font_proof.py:263 | `split("\n")` gives at least one line and no line holds a newline |
| FontProof.SplitJoin | pixelfont/font_proof.py:263 | joining the lines with newlines gives back the text |
| FontProof.RowWidthMonotone | pixelfont/font_proof.py:269-276 | a longer prefix of a row is at least as wide |
| FontProof.LastSpace | pixelfont/font_proof.py:267-271 | the break candidate lies before the scan position, or is 0, which `break_i or next_i` treats as unset; `PrefixStep` states that it is the latest whitespace |
| FontProof.ScanRow | pixelfont/font_proof.py:265-277 | a break falls after the first character and inside the line |
| FontProof.WrapLine | pixelfont/font_proof.py:264-279 | a line that wraps gives at least one row |
| FontProof.ScanRule | pixelfont/font_proof.py:265-277 | a row breaks at its latest whitespace after position 0, otherwise before the glyph that does not fit; the row before that glyph fits unless it is one glyph; a character without a glyph is the `KeyError` |
| FontProof.ScanFits | pixelfont/font_proof.py:265-279 | a line whose scan reaches its end without a break fits the width, unless it is one glyph |
| FontProof.ScanMissing | pixelfont/font_proof.py:269 | a scan stops for a missing glyph only at a character of the line that has none |
| FontProof.ScanBreaks | pixelfont/font_proof.py:270-273 | a break overflows the width at the glyph that does not fit, fits just before it unless the row is one glyph, and falls at the latest whitespace or before that glyph |
| FontProof.PrefixStep | pixelfont/font_proof.py:266-277 | one more character adds its glyph's width and the gap to the row, and becomes the break candidate when it is whitespace |
| FontProof.RowsFit | pixelfont/font_proof.py:264-279 | every row of a wrapped line fits the width, except a row of a single glyph |
| FontProof.FirstRowFits | pixelfont/font_proof.py:270-272 | the row cut off at a break fits the width, unless it is a single glyph |
| FontProof.WrapBreaks | pixelfont/font_proof.py:271-274 | a line that breaks wraps into its first row, then the rows of the rest with its leading whitespace stripped |
| FontProof.WrapKeepsText | pixelfont/font_proof.py:264-279 | wrapping loses no visible character and keeps their order: only whitespace at a break disappears |
| FontProof.VisibleStripLeft | pixelfont/font_proof.py:273 | `lstrip` removes whitespace only |
| FontProof.WrapLines | pixelfont/font_proof.py:262-279 | every input line gives at least one row |
| FontProof.WrapText | pixelfont/font_proof.py:262-279 | the wrapping loops give the rows of each line of the text in turn, or fail on a character without a glyph |
| FontProof.WrapLinesNone | pixelfont/font_proof.py:269 | one character without a glyph, in any line, fails the whole text |
| FontProof.WrapOne | pixelfont/font_proof.py:264-279 | the inner `while` gives exactly the rows the wrapping function describes |
| FontProof.Cols | pixelfont/font_proof.py:287 | the slice `block[:, x:x + w]` has `w` columns when it fits and is clipped at the block's edge otherwise |
| FontProof.RowInkSome | pixelfont/font_proof.py:284-288 | a pixel of a laid-out row is inked exactly when one of its glyphs inks it |
| FontProof.GlyphInkAt | pixelfont/font_proof.py:285-288 | a glyph at column `x` inks exactly its own pixels, shifted by `x` |
| FontProof.Placeable | pixelfont/font_proof.py:287 | whether numpy accepts the in-place OR of a glyph at a column, reduced to the width check (see Left out); used by PlaceGlyph, Render and TextBlock |
| FontProof.PlaceGlyph | pixelfont/font_proof.py:287 | The in-place OR succeeds exactly when numpy accepts the shapes, and then ORs the glyph into its rectangle and leaves every other pixel |
| FontProof.DrawRow | pixelfont/font_proof.py:284-289 | the glyphs of a row are ORed in left to right, each a gap after the last, and the block is the old block plus the row's ink |
| FontProof.BandInside | pixelfont/font_proof.py:281-290 | each row's band lies inside the block |
| FontProof.DrawBand | pixelfont/font_proof.py:283-290 | one pass of the layout loop adds row `r`'s ink in its band, on top of the bands before it |
| FontProof.Render | pixelfont/font_proof.py:281-290 | the block is `len(rows) * row_h` by `width`, and each pixel is inked exactly when some row's glyph inks it; it fails exactly when numpy refuses some glyph |
| FontProof.Largest | pixelfont/font_proof.py:242-258 | `max(...)` over the glyphs bounds every glyph's size and is attained |
| FontProof.TextBlock | pixelfont/font_proof.py:254-296 | `text_block` succeeds exactly when the font has "n", the width is not negative, every character has a glyph and numpy accepts every glyph; the block is then the wrapped rows laid out `max_h + 1` apart |
| FontProof.WrapLinesKnown | pixelfont/font_proof.py:269-285 | every row that wrapping gives has a glyph for each character, so the layout loop cannot fail on a missing glyph |
| FontProof.TimesIsProduct | pixelfont/font_proof.py:300 | the repeated addition used for sizes is multiplication |
| FontProof.RepeatEach | pixelfont/font_proof.py:300 | `numpy.repeat` makes a sequence `z` times as long |
| FontProof.RepeatEachAt | pixelfont/font_proof.py:300 | the elements of the `q`th run of `z` are all element `q` |
| FontProof.Zoom | pixelfont/font_proof.py:299-300 | zooming makes `z` times as many rows |
| FontProof.ZoomAt | pixelfont/font_proof.py:299-300 | each pixel becomes a `z` by `z` square of its value |
| FontProof.Clip | pixelfont/font_proof.py:233 | `s[a:b]` is clipped to the sequence and holds its elements from `a` on |
| FontProof.EveryNth | pixelfont/font_proof.py:233 | `s[::z]` is no longer than `s`, and non-empty when `s` is |
| FontProof.EveryNthAt | pixelfont/font_proof.py:233 | element `i` of `s[::z]` is element `i * z` of `s` |
| FontProof.Columns | pixelfont/font_proof.py:233 | slicing and sampling the columns treats every row alike |
| FontProof.SampleAt | pixelfont/font_proof.py:233 | element `k` of `s[a:a + n][::z]` is element `a + k * z` of `s` |
| FontProof.CellRow | pixelfont/font_proof.py:231-233 | row `i` of a cell samples sheet row `y + i * z`, clipped to the cell's columns |
| FontProof.EveryNthLength | pixelfont/font_proof.py:233 | sampling every `z`th element of `s` keeps `Sampled` of its length elements, the count of indices 0, z, 2z, … below that length (the ceiling of the length over `z`, counted without division) |
| FontProof.CellRect | pixelfont/font_proof.py:233 | every cell of a rectangular sheet is rectangular |
| FontProof.RowSampleWidth | pixelfont/font_proof.py:233 | every sampled row of a cell has the same width |
| FontProof.LastInk | pixelfont/font_proof.py:234 | the last inked position of a row, with no ink after it |
| FontProof.LastInkRow | pixelfont/font_proof.py:234-240 | `nzy.max()`: the last row holding ink, with none after it |
| FontProof.LastInkCol | pixelfont/font_proof.py:234-240 | `nzx.max()`: the last column holding ink in any row |
| FontProof.Crop | pixelfont/font_proof.py:234-240 | a cell without ink gives no glyph; otherwise the glyph is the cell's top-left box up to its last inked row and column |
| FontProof.CropTight | pixelfont/font_proof.py:240 | the crop holds all the cell's ink, and its last row and last column each hold some |
| FontProof.RowPlaces | pixelfont/font_proof.py:228 | one cell per character of a layout row |
| FontProof.PlacesPrefix | pixelfont/font_proof.py:227-228 | the cells of the first layout rows come first |
| FontProof.FoldAppend | pixelfont/font_proof.py:227-240 | looping over two runs of cells is looping over the first, then the second |
| FontProof.FoldErrSticks | pixelfont/font_proof.py:237-238 | an error ends the loop: later cells leave it as it is |
| FontProof.FoldNext | pixelfont/font_proof.py:228-240 | one more cell is one more step of the loop |
| FontProof.FoldStops | pixelfont/font_proof.py:237-238 | once the loop has failed, the cells after it change nothing |
| FontProof.CollectShaped | pixelfont/font_proof.py:226-240 | every glyph the loop gives is in shape, and each new one is at least 1 by 1 |
| FontProof.Blank | pixelfont/font_proof.py:245 | the blank space glyph is in shape |
| FontProof.LoadSheet | pixelfont/font_proof.py:222-247 | the body of `load_fonts` for one sheet gives the glyphs the sheet function describes, or its error |
| FontProof.LoadRow | pixelfont/font_proof.py:228-240 | the inner loop takes the cells of one layout row in turn |
| FontProof.AddSpace | pixelfont/font_proof.py:242-245 | the sizes are computed and a blank space is added when the sheet has none, as the space rule says |
| FontProof.TakeCell | pixelfont/font_proof.py:229-240 | one cell: skip whitespace, crop the glyph, and fail on an empty cell unless the sheet inherits |
| FontProof.SameMax | pixelfont/font_proof.py:242-243 | a size that bounds every glyph and is attained is the largest |
| FontProof.WithSpaceRule | pixelfont/font_proof.py:242-245 | the space rule keeps every glyph, adds a space when there is none, and keeps glyphs in shape |
| FontProof.SheetHasSpace | pixelfont/font_proof.py:226-247 | a loaded font has a space and every glyph in shape; a space the sheet lacks is blank, as high as the tallest glyph and a quarter of the widest, rounded up; a sheet without glyphs fails at `max` |
| Dw3k.Ord | dw3000/lib/dw3k/dw3k.h:5-21 | the fifteen statuses in their declared order |
| Dw3k.Bug | uwb/libraries/dw3k/dw3k.cpp:18-21 | `bug()` sets the status to CodeBug and records its text |
| Dw3k.PollErrorFinal | uwb/libraries/dw3k/dw3k.cpp:35-36 | ChipError and CodeBug are final: a poll leaves the driver as it is |
| Dw3k.PollForward | uwb/libraries/dw3k/dw3k.cpp:33-200 | a poll never moves the status backwards in the enum order |
| Dw3k.Poll | uwb/libraries/dw3k/dw3k.cpp:33-200 | `dw3k_poll`; stated by `PollErrorFinal`, `PollForward`, `ResetTimed` and the lemmas of its stages |
| Dw3k.AfterInitForward | uwb/libraries/dw3k/dw3k.cpp:106-199 | the stages after initialisation never move the status backwards |
| Dw3k.ResetTimed | uwb/libraries/dw3k/dw3k.cpp:42-47 | reset ends exactly when 10 ms have passed on the wrapping millisecond clock and the IRQ pin reads low; until then nothing changes |
| Dw3k.Initialised | uwb/libraries/dw3k/dw3k.cpp:53-100 | the reset-and-initialise stage of a poll; stated by InitChecks |
| Dw3k.InitChecks | uwb/libraries/dw3k/dw3k.cpp:53-100 | with the IRQ pin low the driver waits in ResetWaitIRQ; a wrong device ID or missing OTP trim data is a ChipError with its text; otherwise the TX_FCTRL and CHAN_CTRL caches hold 0x1800 and 0x094E |
| Dw3k.AfterInit | uwb/libraries/dw3k/dw3k.cpp:106-199 | the poll from the error check on; stated by ErrorFlags, PllGate, CalibrationOutcome, PollRadio and AfterInitForward |
| Dw3k.ErrorFlags | uwb/libraries/dw3k/dw3k.cpp:106-117 | after initialisation, any failure bit of SYS_STATUS makes the poll a ChipError with the text of the last matching bit, and nothing else changes |
| Dw3k.PllGate | uwb/libraries/dw3k/dw3k.cpp:123-129 | calibration starts exactly when the lock bit is set and the PLL_CAL busy bit is clear |
| Dw3k.CalibrationOutcome | uwb/libraries/dw3k/dw3k.cpp:131-143 | calibration waits for RX_CAL_STS, fails when either result is 0x1FFFFFFF and is otherwise Ready |
| Dw3k.PollRadio | uwb/libraries/dw3k/dw3k.cpp:149-199 | from Ready or a radio state, without failure bits, the poll is the completion stage alone |
| Dw3k.RadioStep | uwb/libraries/dw3k/dw3k.cpp:149-199 | the completion stage; stated by RadioSettled, RadioForward, TransmitWaitSteps, TransmitActiveSteps and ReceiveSteps |
| Dw3k.RadioSettled | uwb/libraries/dw3k/dw3k.cpp:149-199 | the completion stage changes only a transmission or reception in progress |
| Dw3k.RadioForward | uwb/libraries/dw3k/dw3k.cpp:149-199 | the completion stage never moves the status backwards |
| Dw3k.TxForward | uwb/libraries/dw3k/dw3k.cpp:150-168 | the transmit steps never move the status backwards |
| Dw3k.RxForward | uwb/libraries/dw3k/dw3k.cpp:180-188 | the receive steps never move the status backwards |
| Dw3k.TransmitWaitSteps | uwb/libraries/dw3k/dw3k.cpp:150-178 | a waiting transmission becomes active on a frame-sent bit and done in the same poll on bit 0x80; without those bits it is too late on the late-start bit or in system state 0xD0000; one not done whose PMSC state leaves the transmit range is a ChipError |
| Dw3k.TransmitActiveSteps | uwb/libraries/dw3k/dw3k.cpp:165-178 | an active transmission is done on bit 0x80, and otherwise fails when the PMSC state leaves the transmit range |
| Dw3k.ReceiveSteps | uwb/libraries/dw3k/dw3k.cpp:180-197 | a listening receiver analyses on the preamble bit, a receiver done on the done bit, and one still listening or analysing fails when the PMSC state leaves the receive range |
| Dw3k.StatusText | uwb/libraries/dw3k/dw3k.cpp:339-358 | the recorded error text in the two error states, the status name otherwise |
| Dw3k.NamesDistinct | uwb/libraries/dw3k/dw3k.cpp:341-354 | no two statuses share a name |
| Dw3k.Fctrl | uwb/libraries/dw3k/dw3k.cpp:218 | the evidently intended TX_FCTRL update: the 10-bit length field replaced, every higher bit kept |
| Dw3k.FctrlAsWritten | uwb/libraries/dw3k/dw3k.cpp:218 | the code's update clears only bits 8 and 9: the bits above the field are kept whenever the length fits |
| Dw3k.FctrlKeepsStaleLength | uwb/libraries/dw3k/dw3k.cpp:215-220 | buffering 3 and then 4 bytes leaves 13 in the length field where 9 is meant |
| Dw3k.BufferTx | uwb/libraries/dw3k/dw3k.cpp:209-221 | a negative size, or one that would bring the buffer to the 1021-byte packet size, is a bug, so is buffering outside Ready; otherwise the buffer grows by the size and the whole length field becomes the buffered bytes plus the 2-byte CRC, the corrected update (see Left out) |
| Dw3k.ScheduleTx | uwb/libraries/dw3k/dw3k.cpp:223-230 | from Ready the transmission waits for its time; from anywhere else it is a bug |
| Dw3k.StartRx | uwb/libraries/dw3k/dw3k.cpp:272-277 | from Ready the receiver listens; from anywhere else it is a bug |
| Dw3k.EndTxRx | uwb/libraries/dw3k/dw3k.cpp:318-337 | from a radio state or Ready the driver is Ready with an empty transmit buffer, TXRXOFF sent exactly when a transmission or reception is in flight; from elsewhere it is a bug |
| Dw3k.RxSizeAsWritten | uwb/libraries/dw3k/dw3k.cpp:279-290 | `dw3k_rx_size` as written: before a frame is analysed it is a bug; a 6-bit length below 2 is a ChipError; otherwise the size is that length less the CRC, so at most 61 |
| Dw3k.RxSizeTruncated | uwb/libraries/dw3k/dw3k.cpp:283 | a 74-byte frame (RX_FINFO 0x004A) is sized as 8 bytes, and no frame is ever sized above 61 bytes |
| Dw3k.RxSize | uwb/libraries/dw3k/dw3k.cpp:279-290 | as the corrected half of the RX_FINFO finding: before a frame is analysed it is a bug; a 10-bit length below 2 is a ChipError; otherwise the state is unchanged and the size is that length less the CRC, at most the 1021-byte packet size |
| Dw3k.RxSizeWhole | uwb/libraries/dw3k/dw3k.cpp:279-290 | with the whole length field the 74-byte frame is sized as 72 bytes, and the longest frame fills the 1021-byte buffer |
| Dw3k.RetrieveRx | uwb/libraries/dw3k/dw3k.cpp:292-299 | the read happens exactly when a frame has arrived and the range lies inside the buffer; otherwise it is a bug |
| Dw3k.ClockT32 | uwb/libraries/dw3k/dw3k.cpp:202-207 | the SYS_TIME register once the clock runs, a bug and 0 before |
| Dw3k.PreambleSymbols | uwb/libraries/dw3k/dw3k.cpp:237-251 | the nine valid TXPSR codes, each with a preamble of 32 to 4096 symbols |
| Dw3k.TxLeadSymbols | uwb/libraries/dw3k/dw3k.cpp:232-253 | a bug before the clock runs; an invalid TXPSR code is a ChipError; otherwise the state is unchanged and the count is the preamble plus 16 symbols exactly when `cache_chan_ctrl & 0x6` is 0x4, and plus 8 otherwise |
| Dw3k.InitialLead | uwb/libraries/dw3k/dw3k.cpp:253 | with the CHAN_CTRL value initialisation caches, the start frame delimiter takes 8 symbols |
| Dw3k.ExpectedT40 | uwb/libraries/dw3k/dw3k.cpp:263 | the scheduled time with its lowest bit dropped, shifted up by 8 bits, plus the antenna delay |
| Dw3k.TxExpectedT40 | uwb/libraries/dw3k/dw3k.cpp:259-264 | a bug before the clock runs; otherwise the antenna delay is read on the first such call and kept, and the result is the expected time with it |
| Dw3k.TxTimestamp | uwb/libraries/dw3k/dw3k.cpp:266-270 | TX_STAMP once sent, a bug and 0 otherwise |
| Dw3k.Stamp40 | uwb/libraries/dw3k/dw3k.cpp:306-307 | the 40-bit stamp has the low word and the high byte as its parts |
| Dw3k.RxTimestamp | uwb/libraries/dw3k/dw3k.cpp:301-308 | RX_STAMP once received, a bug and 0 otherwise |
| Dw3k.CompleteRadio | uwb/libraries/dw3k/dw3k.cpp:149-199 | the completion stage run one check after another gives the stage's outcome |
| Dw3k.CompleteTx | uwb/libraries/dw3k/dw3k.cpp:150-178 | the transmit checks in order |
| Dw3k.CompleteRx | uwb/libraries/dw3k/dw3k.cpp:180-197 | the receive checks in order |
| Dw3k.PickErrorText | uwb/libraries/dw3k/dw3k.cpp:110-115 | the generic text, overwritten by each failure bit in turn, is the text of the last matching bit |
| Dw3kStatics.Driver.constructor | uwb/libraries/dw3k/dw3k.cpp:9-16 | the statics start in status Invalid with the "[No error logged]" text |
| Dw3kStatics.Driver.Bug | uwb/libraries/dw3k/dw3k.cpp:18-21 | the statics become `bug()`'s state |
| Dw3kStatics.Driver.Reset | uwb/libraries/dw3k/dw3k.cpp:23-31 | the status is ResetActive and the reset time is recorded; nothing else changes |
| Dw3kStatics.Driver.Poll | uwb/libraries/dw3k/dw3k.cpp:33-200 | the statics become the poll's new state and the returned status is the new status |
| Dw3kStatics.Driver.Start | uwb/libraries/dw3k/dw3k.cpp:35-100 | the reset and initialisation stages, stopping exactly where the poll returns |
| Dw3kStatics.Driver.Initialise | uwb/libraries/dw3k/dw3k.cpp:53-100 | the initialisation stage, stopping exactly where the poll returns |
| Dw3kStatics.Driver.Finish | uwb/libraries/dw3k/dw3k.cpp:106-199 | the error check, PLL, calibration and completion stages |
| Dw3kStatics.Driver.BufferTx | uwb/libraries/dw3k/dw3k.cpp:209-221 | the statics become the new state of `Dw3k.BufferTx`, with the corrected length update |
| Dw3kStatics.Driver.ScheduleTx | uwb/libraries/dw3k/dw3k.cpp:223-230 | the statics become `dw3k_schedule_tx`'s new state |
| Dw3kStatics.Driver.StartRx | uwb/libraries/dw3k/dw3k.cpp:272-277 | the statics become `dw3k_start_rx`'s new state |
| Dw3kStatics.Driver.EndTxRx | uwb/libraries/dw3k/dw3k.cpp:318-337 | the statics and the TXRXOFF flag are `dw3k_end_txrx`'s |
| Dw3kStatics.Driver.RxSize | uwb/libraries/dw3k/dw3k.cpp:279-290 | the statics and the size are those of the corrected `Dw3k.RxSize` |
| Dw3kStatics.Driver.RetrieveRx | uwb/libraries/dw3k/dw3k.cpp:292-299 | the statics and the read flag are `dw3k_retrieve_rx`'s |
| Dw3kStatics.Driver.ClockT32 | uwb/libraries/dw3k/dw3k.cpp:202-207 | the statics and the time are `dw3k_clock_t32`'s |
| Dw3kStatics.Driver.TxLeadSymbols | uwb/libraries/dw3k/dw3k.cpp:232-253 | the statics and the symbol count are `dw3k_tx_leadtime_t32`'s |
| Dw3kStatics.Driver.TxExpectedT40 | uwb/libraries/dw3k/dw3k.cpp:259-264 | the statics, with the antenna delay kept from the first call, and the time are `dw3k_tx_expected_t40`'s |
| Dw3kStatics.Driver.TxTimestamp | uwb/libraries/dw3k/dw3k.cpp:266-270 | the statics and the stamp are `dw3k_tx_timestamp_t40`'s |
| Dw3kStatics.Driver.RxTimestamp | uwb/libraries/dw3k/dw3k.cpp:301-308 | the statics and the stamp are `dw3k_rx_timestamp_t40`'s |
| Dw3kUwbTest.ChipErrorFinal | uwb/uwbtest/dw3k_driver.cpp:33-128 | the variant has no early return, yet ChipError stays ChipError; only a new failure bit changes its text |
| Dw3kUwbTest.Poll | uwb/uwbtest/dw3k_driver.cpp:33-128 | the variant's `dw3k_poll`; stated by `ChipErrorFinal`, `CodeBugOverridden`, `DirectInit`, `PllAndCalibration`, `AnalysisDone` and `DoneBitsDiffer` |
| Dw3kUwbTest.Configured | uwb/uwbtest/dw3k_driver.cpp:33-128 | the variant's reset-wait stage; stated by `DirectInit` |
| Dw3kUwbTest.Flagged | uwb/uwbtest/dw3k_driver.cpp:33-128 | the variant's error check, PLL, calibration and completion stages; stated by `ChipErrorFinal`, `CodeBugOverridden`, `PllAndCalibration` and `AnalysisDone` |
| Dw3kUwbTest.CodeBugOverridden | uwb/uwbtest/dw3k_driver.cpp:53-63 | a CodeBug is left alone unless a failure bit turns it into a ChipError with that bit's text |
| Dw3kUwbTest.DirectInit | uwb/uwbtest/dw3k_driver.cpp:43-51 | with the IRQ pin high, the variant caches TX_FCTRL 0x1C00 and CHAN_CTRL 0x031E without checking the device |
| Dw3kUwbTest.PllAndCalibration | uwb/uwbtest/dw3k_driver.cpp:65-75 | calibration starts on the lock bit alone and is Ready as soon as RX_CAL_STS is non-zero |
| Dw3kUwbTest.AnalysisDone | uwb/uwbtest/dw3k_driver.cpp:113-116 | analysis ends exactly on bit 0x400 |
| Dw3kUwbTest.DoneBitsDiffer | uwb/uwbtest/dw3k_driver.cpp:113-116 | with only bit 0x2000 set, the library's receiver is done and the variant's is still analysing |
| Dw3kUwbTest.BufferTx | uwb/uwbtest/dw3k_driver.cpp:160-172 | the guards of the library against the configured maximum; the whole length field becomes the buffered bytes, with no CRC added, the corrected update (see Left out) |
| Dw3kUwbTest.RxSize | uwb/uwbtest/dw3k_driver.cpp:245-251 | before a frame is analysed it is a bug; otherwise the 6-bit length less the CRC, 0 when the length is below 2 and the configured maximum when it is above the maximum plus 2, instead of failing |
| Dw3kUwbTest.RetrieveRx | uwb/uwbtest/dw3k_driver.cpp:230-237 | the read happens exactly when a frame has arrived and the range lies inside the configured maximum plus the CRC; otherwise it is a bug |
| Dw3kUwbTest.RetrieveRxAgrees | uwb/uwbtest/dw3k_driver.cpp:230-237 | with the library's packet size as the maximum, the variant's read guard is the library's |
| Dw3kUwbTest.RxTimestamp | uwb/uwbtest/dw3k_driver.cpp:239-243 | the 64 bits read at RX_STAMP_LO once received, a bug and 0 otherwise |
| Dw3kUwbTest.RxTimestampWider | uwb/uwbtest/dw3k_driver.cpp:239-243 | the variant's stamp adds the three bytes read after the 40-bit stamp at bit 40, so it is the library's stamp exactly when they are zero |
| Dw3kUwbTestStatics.Driver.constructor | uwb/uwbtest/dw3k_driver.cpp:9-16 | the statics start in status Invalid with the "[No error logged]" text, for a configured maximum size |
| Dw3kUwbTestStatics.Driver.Bug | uwb/uwbtest/dw3k_driver.cpp:18-21 | the statics become `bug()`'s state |
| Dw3kUwbTestStatics.Driver.Reset | uwb/uwbtest/dw3k_driver.cpp:23-31 | the status is ResetActive and the reset time is recorded; nothing else changes |
| Dw3kUwbTestStatics.Driver.Poll | uwb/uwbtest/dw3k_driver.cpp:33-128 | the statics become the variant's poll state and the returned status is the new status |
| Dw3kUwbTestStatics.Driver.Finish | uwb/uwbtest/dw3k_driver.cpp:53-127 | the error flags, PLL, calibration and completion stages of the variant |
| Dw3kUwbTestStatics.Driver.BufferTx | uwb/uwbtest/dw3k_driver.cpp:160-172 | the statics become the new state of `Dw3kUwbTest.BufferTx`, with the corrected length update |
| Dw3kUwbTestStatics.Driver.RxSize | uwb/uwbtest/dw3k_driver.cpp:245-251 | the statics and the size are the variant's `dw3k_rx_size`'s |
| Dw3kUwbTestStatics.Driver.RetrieveRx | uwb/uwbtest/dw3k_driver.cpp:230-237 | the statics and the read flag are the variant's `dw3k_retrieve_rx`'s |
| Dw3kUwbTestStatics.Driver.RxTimestamp | uwb/uwbtest/dw3k_driver.cpp:239-243 | the statics and the stamp are the variant's `dw3k_rx_timestamp_t40`'s |
| Dw3kUwbTestStatics.Driver.EndTxRx | uwb/uwbtest/dw3k_driver.cpp:253-272 | the statics and the TXRXOFF flag are those of the library's `dw3k_end_txrx` |
| Dw3kSpi.Header | uwb/uwbtest/dw3k_spi.cpp:32-39 | a plain access at offset 0 is one byte holding the write bit and the file; any other is two bytes |
| Dw3kSpi.Decode | uwb/uwbtest/dw3k_spi.cpp:32-39 | a header is read back from one or two bytes, the second one present exactly when bit 6 of the first is set |
| Dw3kSpi.LeadBack | uwb/uwbtest/dw3k_spi.cpp:34-36 | the first header byte gives back the long-form bit, the write bit and the file |
| Dw3kSpi.OffsetBack | uwb/uwbtest/dw3k_spi.cpp:36-37 | the two header bytes give back the offset and the mask mode |
| Dw3kSpi.HeaderDecodes | uwb/uwbtest/dw3k_spi.cpp:32-39 | for a file below 32, an offset below 128 and a mask mode up to 3, decoding the header gives back the access |
| Dw3kSpi.OffsetSpills | uwb/uwbtest/dw3k_spi.cpp:36 | an offset of 128 or more spills into the file bits: offset 192 of file 0 and offset 64 of file 1 send the same header |
| Dw3kSpi.CommandByte | uwb/uwbtest/dw3k_spi.cpp:28 | a fast command byte has bits 0 and 7 set and the command code in bits 1-6 |
| Dw3kSpi.Sends | uwb/uwbtest/dw3k_spi.cpp:21-24 | one transfer per byte, in order |
| Dw3kSpi.Le16 | uwb/uwbtest/dw3k_spi.cpp:66-67 | `send_data(&mask, 2)` sends the value's two bytes lowest first, which together give the value back |
| Dw3kSpi.Le32 | uwb/uwbtest/dw3k_spi.cpp:74-75 | `send_data(&mask, 4)` sends the value's four bytes lowest first, which together give the value back |
| Dw3kSpi.SentAppend | uwb/uwbtest/dw3k_spi.cpp:21-24 | the bytes sent by two runs of events are those of the first, then the second |
| Dw3kSpi.SentSends | uwb/uwbtest/dw3k_spi.cpp:21-24 | sending bytes one at a time sends exactly those bytes |
| Dw3kSpi.TransactionSent | uwb/uwbtest/dw3k_spi.cpp:11-19 | selecting and deselecting the chip around a transfer sends no bytes of its own |
| Dw3kSpi.ReadSent | uwb/uwbtest/dw3k_spi.cpp:41-46 | of the bytes the model records as sent, a read has only its header; the bytes clocked out while the data is read are not recorded (see Left out) |
| Dw3kSpi.Bus.constructor | uwb/uwbtest/dw3k_spi.cpp:11-19 | the bus starts with no events |
| Dw3kSpi.Bus.SendData | uwb/uwbtest/dw3k_spi.cpp:21-24 | the loop adds one transfer per byte to the bus |
| Dw3kSpi.Bus.SendHeader | uwb/uwbtest/dw3k_spi.cpp:32-39 | the header's bytes are added to the bus |
| Dw3kSpi.Bus.Command | uwb/uwbtest/dw3k_spi.cpp:26-30 | one transaction of the command byte |
| Dw3kSpi.Bus.Read | uwb/uwbtest/dw3k_spi.cpp:41-46 | one transaction: the read header, then `n` bytes clocked in (the bytes clocked out beside them are not recorded) |
| Dw3kSpi.Bus.Write | uwb/uwbtest/dw3k_spi.cpp:48-53 | one transaction: the write header, then the data |
| Dw3kSpi.Bus.Masked | uwb/uwbtest/dw3k_spi.cpp:55-77 | one transaction: the masked-write header, the AND mask, then the OR value |
| Dw3kSpi.Bus.Mask8 | uwb/uwbtest/dw3k_spi.cpp:55-61 | mask mode 1, then the mask byte and the value byte |
| Dw3kSpi.Bus.Mask16 | uwb/uwbtest/dw3k_spi.cpp:63-69 | mask mode 2, then the mask and the value, lowest byte first |
| Dw3kSpi.Bus.Mask32 | uwb/uwbtest/dw3k_spi.cpp:71-77 | mask mode 3, then the mask and the value, lowest byte first |
| PgCradle.WithBit | rp2040/src/pg_cradle.cpp:204-209 | only bit `k` of the port value changes, and it ends up as asked; the value is unchanged exactly when the bit already was |
| PgCradle.PinModeStep | rp2040/src/pg_cradle.cpp:195-226 | native pins go to the board, pins past the expander are ignored, an unsupported mode aborts; otherwise only the pin's direction bit may change, it is written exactly when it differs, and the cache follows only an acknowledged write |
| PgCradle.DigitalWriteStep | rp2040/src/pg_cradle.cpp:228-249 | pins past the expander are ignored and native pins go to the board; on the expander the output port is written (register 0x02) exactly when the pin's new level changes it, then the direction port (register 0x04) exactly when making the pin an output changes it, and each cached port takes its new value only when its write is acknowledged and is otherwise unchanged |
| PgCradle.DigitalWriteBits | rp2040/src/pg_cradle.cpp:239-249 | an expander write changes only the pin's bit of either port; an acknowledged write leaves the output bit at the level asked and the direction bit at output |
| PgCradle.DigitalReadStep | rp2040/src/pg_cradle.cpp:251-268 | native pins read the board and pins past the expander read low; an expander pin reads its bit of the input port, and low when the read fails |
| PgCradle.LedPower | rp2040/src/pg_cradle.cpp:274-275 | the percentage of the normal power, rounded up and clamped to 0 and 137 |
| PgCradle.SetLedStep | rp2040/src/pg_cradle.cpp:271-285 | LEDs past the count are ignored; otherwise only that LED's cached power changes, to the clamped power, and exactly when it differs one write is made: the LED's register, then the clamped power |
| PgCradle.LedRegister | rp2040/src/pg_cradle.cpp:279 | LED `which` is register 0x23 − which (LED 0 is DIM11, LED 3 is DIM8) |
| PgCradle.ButtonStep | rp2040/src/pg_cradle.cpp:287-312 | buttons past the count read false; otherwise the pin is switched to GPIO mode, read, and switched back on a good read; it is pressed exactly when its bit of the input port is set |
| PgCradle.Height | rp2040/src/pg_cradle.cpp:315-317 | `line_height` clears bits 4-7 of the style and keeps every other bit |
| PgCradle.StyleHeight | rp2040/src/pg_cradle.h:34-37 | a size plus the bold and inverse flags has that size as its height |
| PgCradle.Top | rp2040/src/pg_cradle.cpp:369-372 | the top of a line, summed from the heights above it; stated by TopAbove |
| PgCradle.TopAbove | rp2040/src/pg_cradle.cpp:369-372 | a line's top depends only on the lines above it |
| PgCradle.SetLineStep | rp2040/src/pg_cradle.cpp:360-376 | the line holds the style and the first 16 characters of the text, no other line changes, and the screen stays at its first print only when nothing changed |
| PgCradle.Clip | rp2040/src/pg_cradle.cpp:376 | what `strncpy` keeps of a text; stated by `ClipKeeps` |
| PgCradle.ClipKeeps | rp2040/src/pg_cradle.cpp:376 | `strncpy` keeps a prefix of the text of at most 16 characters, and the whole text when it fits |
| PgCradle.RunLength | rp2040/src/pg_cradle.cpp:413 | the characters before the first CR or LF |
| PgCradle.Tokens | rp2040/src/pg_cradle.cpp:413 | every `strtok_r` token is non-empty and free of CR and LF |
| PgCradle.KeptRun | rp2040/src/pg_cradle.cpp:413 | a run without delimiters is kept whole |
| PgCradle.TokensKeep | rp2040/src/pg_cradle.cpp:413 | the tokens hold every character that is not CR or LF, in order |
| PgCradle.Assign | rp2040/src/pg_cradle.cpp:413-416 | the tokens go to consecutive lines from `line`, and stop at line 11 |
| PgCradle.PrintCallsAsWritten | rp2040/src/pg_cradle.cpp:410-416 | as the as-written half of the pg_cradle.cpp:410 finding: the first call is the whole-buffer call for `line`, whatever its value, and only the calls after it are kept to existing lines |
| PgCradle.PrintfPastLastLine | rp2040/src/pg_cradle.cpp:410 | the call before the loop reaches `set_line` with line 11, one past the last line |
| PgCradle.PrintCalls | rp2040/src/pg_cradle.cpp:410-416 | the corrected calls reach only existing lines |
| PgCradle.Apply | rp2040/src/pg_cradle.cpp:362-376 | applying calls keeps the eleven lines |
| PgCradle.Printf | rp2040/src/pg_cradle.cpp:401-418 | `pg_cradle_printf` keeps the eleven lines |
| PgCradle.AssignFills | rp2040/src/pg_cradle.cpp:413-416 | the first `n` calls fill their lines with their tokens and leave the rest alone |
| PgCradle.PrintfLines | rp2040/src/pg_cradle.cpp:401-418 | the tokens fill consecutive lines from `line`, as many as fit; with no token the line gets the start of the buffer; no other line changes |
| PgCradle.Buffer | rp2040/src/pg_cradle.cpp:408 | what `vsnprintf` leaves of the formatted text; stated by `BufferKeeps` |
| PgCradle.BufferKeeps | rp2040/src/pg_cradle.cpp:408 | `vsnprintf` leaves a prefix of the formatted text of at most 176 characters, and the whole text when it fits |
| PgCradle.ApplyAppend | rp2040/src/pg_cradle.cpp:413-416 | two runs of calls apply one after the other |
| PgCradleIo.Cradle.constructor | rp2040/src/pg_cradle.cpp:36-44 | the detected counts, every expander pin a low input, the LEDs off, the lines blank and no traffic |
| PgCradleIo.Cradle.PinMode | rp2040/src/pg_cradle.cpp:195-226 | the expander state and the traffic follow `PinModeStep`; nothing else changes |
| PgCradleIo.Cradle.DigitalWrite | rp2040/src/pg_cradle.cpp:228-249 | the expander state and the traffic follow `DigitalWriteStep`; nothing else changes |
| PgCradleIo.Cradle.DigitalRead | rp2040/src/pg_cradle.cpp:251-268 | the level and the traffic follow `DigitalReadStep`; no state changes |
| PgCradleIo.Cradle.SetLed | rp2040/src/pg_cradle.cpp:271-285 | the LED powers and the traffic follow `SetLedStep`; nothing else changes |
| PgCradleIo.Cradle.Button | rp2040/src/pg_cradle.cpp:287-312 | the answer and the traffic follow `ButtonStep`; no state changes |
| PgCradleIo.Cradle.SetLine | rp2040/src/pg_cradle.cpp:360-376 | the screen follows `SetLineStep`, and a change reports the line's top, the heights of the lines above summed |
| PgCradleIo.Cradle.SetTokens | rp2040/src/pg_cradle.cpp:413-416 | the loop applies the calls `Assign` gives |
| PgCradleIo.Cradle.Printf | rp2040/src/pg_cradle.cpp:401-418 | the screen follows the corrected `pg_cradle_printf` |
| PinTest.Start | rp2040/src/pintest_main.cpp:353-356 | the state after `setup` is well formed |
| PinTest.Fold | rp2040/src/pintest_main.cpp:148 | Setting bit 5 of the key lower-cases a letter and keeps lower-case letters and digits |
| PinTest.LedOf | rp2040/src/pintest_main.cpp:148-156 | a status LED index from 0 to 3, or -1 |
| PinTest.Find | rp2040/src/pintest_main.cpp:181 | `std::find`: the first index of the pin, or -1 exactly when it is not in the table |
| PinTest.Selection | rp2040/src/pintest_main.cpp:180-190 | a pin is selected exactly when it is below the expander's last pin and in the table, at its first index, without a message |
| PinTest.Step | rp2040/src/pintest_main.cpp:129-321 | every key keeps the state well formed: a selected pin, a strip pin and the pin modes stay in the table's range |
| PinTest.LedKey | rp2040/src/pintest_main.cpp:145-160 | the key after 's' changes only the status LEDs |
| PinTest.Entry | rp2040/src/pintest_main.cpp:162-178 | pin-number entry keeps the state well formed |
| PinTest.Select | rp2040/src/pintest_main.cpp:180-193 | selecting an entered pin keeps the state well formed |
| PinTest.Command | rp2040/src/pintest_main.cpp:195-223 | the one-key commands keep the state well formed |
| PinTest.StripKey | rp2040/src/pintest_main.cpp:225-289 | a strip key keeps the state well formed; what it does is stated by `StripKeys` |
| PinTest.ModeKey | rp2040/src/pintest_main.cpp:291-320 | a mode key keeps the state well formed |
| PinTest.CarriageReturnIgnored | rp2040/src/pintest_main.cpp:136-137 | a carriage return changes nothing |
| PinTest.ControlCharacterRejected | rp2040/src/pintest_main.cpp:138-142 | any other control character or non-ASCII byte is reported and cancels the pending key, and nothing else changes |
| PinTest.StatusLedKey | rp2040/src/pintest_main.cpp:145-160 | after 's' a key naming an LED toggles it and sets its power to 100 or 0 percent; any other is reported; the pending 's' is cleared either way and nothing else changes |
| PinTest.LedKeys | rp2040/src/pintest_main.cpp:148-152 | o or 0 names orange, g or 1 green, b or 2 blue, w or 3 white, in either case, and no other printable key names one |
| PinTest.TwoDigits | rp2040/src/pintest_main.cpp:163-173 | a first digit waits; a second selects pin 10a + b |
| PinTest.ExtraPinDigit | rp2040/src/pintest_main.cpp:164-166 | 'x' and a digit select the expander pin of that number |
| PinTest.OneDigit | rp2040/src/pintest_main.cpp:174-192 | a digit ended by a newline selects its pin; ended by another key, the key then runs as a command ("3i") |
| PinTest.ModeKeys | rp2040/src/pintest_main.cpp:291-320 | without a selected pin a mode key is reported; otherwise the pin records the lower-case key and gets its mode, and only h and l drive it, high and low |
| PinTest.ModeOf | rp2040/src/pintest_main.cpp:291-300 | the mode table; stated by `ModeKeys` |
| PinTest.StripKeys | rp2040/src/pintest_main.cpp:239-289 | a strip key needs a selected pin on the board: without one, or with an expander pin, it is refused with its message and nothing else changes; otherwise the strip moves to that pin (the old strip pin goes back to input), is painted and shown, the pin records the raw key, the strip keeps rotating exactly for an upper-case key ("UPPER=repeat") and the LEDs stay |
| PinTest.RainbowAt | rp2040/src/pintest_main.cpp:262-271 | every rainbow colour has components from 0 to 255 summing to 255 |
| PinTest.StripeAt | rp2040/src/pintest_main.cpp:274-280 | a pixel is white exactly for the first 16 of every 32, and black otherwise |
| PinTest.StripePeriod | rp2040/src/pintest_main.cpp:275 | the stripes repeat every 32 pixels |
| PinTest.RainbowPeriod | rp2040/src/pintest_main.cpp:263 | the rainbow repeats every 384 pixels |
| PinTest.HtmlRgb | rp2040/src/pintest_main.cpp:282 | `HtmlColor` splits 0xRRGGBB into three components that give it back |
| PinTest.PaintAt | rp2040/src/pintest_main.cpp:260-283 | every painted pixel has components from 0 to 255 |
| PinTest.StripKeyColours | rp2040/src/pintest_main.cpp:225-237 | every strip key's colour is a 24-bit value |
| PinTest.StripColour | rp2040/src/pintest_main.cpp:225-237 | the strip colour table; stated by `StripKeyColours` and used by `StripKeys` |
| PinTest.PaintOf | rp2040/src/pintest_main.cpp:260-283 | rainbow for a/A, stripes for z/Z, otherwise the table colour; stated by `PaintAt` and `StripKeys` |
| PinTest.RotatedRight | rp2040/src/pintest_main.cpp:327-330 | the buffer keeps its length, each byte moves up three places and the last pixel comes first |
| PinTest.Turns | rp2040/src/pintest_main.cpp:323-333 | repeated turns keep the buffer's length |
| PinTest.TurnsShift | rp2040/src/pintest_main.cpp:323-333 | `n` turns move the last `n` pixels to the front |
| PinTest.TurnsCycle | rp2040/src/pintest_main.cpp:323-333 | as many turns as there are pixels bring the buffer back |
| PinTestLoop.Sketch.constructor | rp2040/src/pintest_main.cpp:353-356 | the sketch starts in the state after `setup`, with no effects and no messages |
| PinTestLoop.Sketch.Key | rp2040/src/pintest_main.cpp:129-321 | one character read: the new state, the effects and messages appended and the redraw flag are those of `Step` |
| PinTestLoop.Sketch.StatusLed | rp2040/src/pintest_main.cpp:145-160 | the key after 's' as `LedKey` describes |
| PinTestLoop.Sketch.Entry | rp2040/src/pintest_main.cpp:162-178 | pin-number entry as `Entry` describes |
| PinTestLoop.Sketch.SelectPin | rp2040/src/pintest_main.cpp:180-193 | the pin selection as `Select` describes |
| PinTestLoop.Sketch.CommandKey | rp2040/src/pintest_main.cpp:195-223 | the one-key commands as `Command` describes |
| PinTestLoop.Sketch.DriveStrip | rp2040/src/pintest_main.cpp:239-289 | a strip key as `StripKey` describes |
| PinTestLoop.Sketch.SetPinMode | rp2040/src/pintest_main.cpp:291-320 | a mode key as `ModeKey` describes |
| PinTestLoop.Strip.constructor | rp2040/src/pintest_main.cpp:256 | a fresh buffer of 768 three-byte pixels |
| PinTestLoop.Strip.Paint | rp2040/src/pintest_main.cpp:260-283 | every pixel holds its paint's colour, green, red and blue bytes in that order |
| PinTestLoop.Strip.Rotate | rp2040/src/pintest_main.cpp:325-330 | the buffer becomes its rotation by one pixel |

## Left out

- The bluepy transport: the radio, the scanner and the peripheral are input scripts and answers, not devices. When a script runs out the exchange ends in `OutOfScript`, an outcome the program itself cannot reach.
- NametagBluetooth: `time.monotonic()` returns a float, and the model's clock readings, elapsed times and timeouts are integers in one common unit. Comparisons such as `elapsed > timeout` keep their meaning, but fractions finer than that unit are not modelled.
- NametagBluetooth.SetupCounts: the errors carry the count found, which the messages of `bluetooth.py:28` and `:34` evidently meant to show. As written those messages are plain literals without the `f` prefix, so the raised text reads `{len(chars)}` or `{len(descriptors)}` and names no count; `SetupMessageAsWritten` models that text and `SetupMessage` the intended one.
- NametagBluetooth.Connection.SendAndExpect: takes its timeout as an argument. The default `timeout=1.0` of `Connection.send_and_expect` is left to the caller, which passes the value explicitly.
- Logging calls and their text in `bluetooth.py`, `send.py` and the capture tool are not modelled; only the log formatter itself is.
- The `tshark` run of `btsnoop_tshark_extract.py` is not modelled: the model starts from the packets it prints. Argument parsing and the connection block of `send.py` are left out too.
- NametagCapture.HexValue: accepts hex digits only. Python's `int(h, 16)` also accepts signs, a `0x` prefix, underscores and surrounding whitespace; fields holding those fail in the model.
- `NametagLogging`: the exception and stack texts of a record are inputs, because `formatException` and the traceback machinery lie outside this model.
- Case conversion covers ASCII only (`upper()` and the lower-casing of `ok_logging`); other Unicode letters are left alone.
- The `ok_log` output side (formatting and printing messages) is left out. C strings are NUL-free sequences, so the NUL terminator is not modelled.
- `OkLogging`: the glob matcher is modelled as given, and the wider matcher abstraction of the library is not modelled.
- Color.MakeSpectrum: counts pixels per bucket instead of the source's `double` fractions of the frame. The two agree up to the division by the pixel count, and the count of an empty frame stays 0 rather than being divided by zero. It also uses the corrected `ToBucket` and an unbounded loop variable, so with `h_step = 1` it does not reproduce the source's `uint8_t` wrap-around of the bucket numbers; for any step of 2 or more (the default is 5) the two agree, as `BucketsAgree` shows.
- Color.UpdateActive: uses the corrected `ToBucket` for its keepout windows and an unbounded loop variable, so with `h_step = 1` it does not reproduce the source's `uint8_t` wrap-around; for any step of 2 or more the two agree, as `BucketsAgree` shows.
- `Color`: `double` values are reals or exact integers, and `uint8_t` loop variables are unbounded integers. The `uint8_t` truncation of `to_bucket` is modelled only in `ToBucketAsWritten` and the finding; the spectrum operations use the corrected bucket numbers.
- FontProof: image loading, `print`, the `SHEETS` table, the `fonts` dictionary and `main()` are left out. An image is a rectangle of booleans, and every sheet must have a positive `unzoom`.
- FontProof.Placeable: numpy's broadcasting of `block[...] |= glyph` is reduced to its width check. The heights always agree, so only a slice clipped at the block's right edge can be refused.
- FontProof.TextBlock: a negative width fails, as `numpy.zeros` raises for any negative dimension; the model gives the failure no exception type.
- Dw3k: the floating-point lead time of `dw3k_tx_leadtime_t32` is reduced to its symbol count. `dw3k_rx_clock_offset` (floating point) and the verbose wait helpers are left out.
- Dw3k: register writes other than the two cached registers are not modelled. SPI traffic inside the driver, and the register reads as such, are not modelled either; the values read are inputs.
- Dw3k: bit tests on the status words are written as bit-vector operations or as arithmetic on naturals, whichever is cheaper to prove. They mean the same as the C expressions.
- Dw3k.StatusText: the `"[BAD STATUS]"` fallback cannot be reached, because every status has a case, so it is not modelled.
- Dw3k: the `Message` datatype stands for the C string constants. `Text` gives their spelling.
- Dw3kStatics.Driver.Reset: like the source, it does not clear `tx_buffer_size`.
- Dw3k.BufferTx: replaces the whole 10-bit length field, the corrected update of the TX_FCTRL finding. Line 218 of `dw3k.cpp` keeps the low bits of the earlier length, so buffering 3 bytes and then 4 more gives 13 there and 9 here; `FctrlAsWritten` models the code's update.
- Dw3kStatics.Driver.BufferTx: follows `Dw3k.BufferTx`, so it has the corrected length update, not the stale-bit OR of `dw3k.cpp:218`.
- Dw3k.RxSize: reads the 10-bit frame length, the corrected half of the RX_FINFO finding. `dw3k.cpp:283` masks 6 bits, which `RxSizeAsWritten` models, so frames of 64 bytes or more are sized differently there.
- Dw3kStatics.Driver.RxSize: follows `Dw3k.RxSize`, so it reads the 10-bit length, not the 6 bits of `dw3k.cpp:283`.
- Dw3kUwbTest: the variant's clock, schedule, lead time, expected time and transmit timestamp calls are the library's, line for line. They are not modelled a second time. Its `dw3k_retrieve_rx` (bounded by the configured maximum) and `dw3k_rx_timestamp_t40` (a single 64-bit read) differ from the library's and are modelled separately.
- Dw3kUwbTest.BufferTx: requires a configured maximum of at most 0x400, the width of the frame length field. It also replaces the whole length field, the corrected update of the TX_FCTRL finding: line 169 of `uwb/uwbtest/dw3k_driver.cpp` keeps the low bits of the earlier length, so buffering 3 bytes and then 2 more gives 7 there and 5 here.
- Dw3kUwbTestStatics.Driver.BufferTx: follows `Dw3kUwbTest.BufferTx`, so it has the corrected length update, not the stale-bit OR of `dw3k_driver.cpp:169`.
- Dw3kSpi.ReadSent: the bytes `SPI.transfer(data, n)` clocks out during a read (the caller's uninitialised buffer, uwb/uwbtest/dw3k_spi.cpp:44) are not modelled, because the chip ignores what it receives during a read; `Receive(n)` records only that `n` bytes are clocked in.
- Dw3kSpi: the `uwbtalk` copy of the SPI file is not modelled. The `SPISettings` clock and mode are not modelled either; the model keeps only the chip select and the byte order.
- PgCradle: `pg_detect_cradle` is not modelled; the detected counts are constructor inputs, bounded by the values detection assigns. The U8g2 drawing, the fonts and `redraw_line` are left out, and so is the screen-area arithmetic at the end of `set_line`.
- PgCradle: the I2C error log lines are not modelled. A failed write is modelled by its effect on the caches.
- PgCradle.Printf: `vsnprintf` is not modelled; the formatted text is an input, cut to the buffer's 176 characters. It also uses the corrected `PrintCalls`, so for `line >= 11` it leaves the screen unchanged, while `pg_cradle.cpp:410` writes past `lines[10]` (see the `set_line` finding).
- PgCradle.LedPower: the `int` product of the normal power and the percentage is unbounded, so its overflow for huge percentages is not modelled.
- PinTest: the status line printed on the serial port (lines 44-121, including its emoji), the `millis` timing and the `Serial.available` polling of the loop are left out.
- PinTest: the NeoPixel object is reduced to its pixel buffer, its pin and its "repeat" flag. `CanShow`, `Dirty` and `Show` are recorded as effects or left out.
- PinTest.Start: does not claim that the statics start zeroed; the model starts from the state after `setup`.
- PinTest: the board's pin table is a parameter, because the source chooses it by target at compile time.

## Findings

| source | as written | input that shows it | evidently intended | confidence | as-written member | corrected member |
|---|---|---|---|---|---|---|
| picam/color_test.cpp:80-83 | `to_bucket` returns `uint8_t`, so with a step below 2 a bucket number of 256 or more wraps | `h_step = 1`, hue 300: the spectrum has 360 buckets, but the bucket is 300 mod 256 = 44 | the bucket number kept whole, below the number of buckets | not executed | Color.ToBucketAsWritten, Color.BucketTruncated | Color.ToBucket |
| uwb/libraries/dw3k/dw3k.cpp:218 | `(cache & ~0x300u)`, ORed with `tx_buffer_size + 2`, clears only bits 8 and 9 of the 10-bit length field, so the low bits of an earlier length survive the OR; line 169 of `uwb/uwbtest/dw3k_driver.cpp` has the same mask | after initialisation, buffer 3 bytes (length 5) and then 4 more (length 9): the field reads 13 | the whole 10-bit field replaced by the new length | not executed | Dw3k.FctrlAsWritten, Dw3k.FctrlKeepsStaleLength | Dw3k.Fctrl |
| uwb/libraries/dw3k/dw3k.cpp:283 | `& 0x3F` keeps only 6 bits of the 10-bit frame length of RX_FINFO, so a frame of 64 bytes or more is sized modulo 64; line 249 of `uwb/uwbtest/dw3k_driver.cpp` has the same mask | RX_FINFO 0x004A, a 74-byte frame: the size is 8 instead of 72 | the whole 10-bit length, as the 1023-byte receive buffer (`dw3k_packet_size + 2`) allows | not executed | Dw3k.RxSizeAsWritten, Dw3k.RxSizeTruncated | Dw3k.RxSize, Dw3k.RxSizeWhole |
| nametag/nametag/bluetooth.py:28 | the set-up messages of lines 28 and 34 are plain string literals, not f-strings, so `{len(chars)}` and `{len(descriptors)}` stay in the text | a service with two FFF1 characteristics: the error reads "Found {len(chars)} FFF0.FFF1 characteristics", the same as for none | the f-strings "Found 2 FFF0.FFF1 characteristics" and so on, naming the count | not executed | NametagBluetooth.SetupMessageAsWritten, NametagBluetooth.SetupMessageHidesCount | NametagBluetooth.SetupMessage, NametagBluetooth.SetupMessageShowsCount |
| rp2040/src/pg_cradle.cpp:410 | `set_line(line, …)` runs before the `line >= LINE_COUNT` check of line 414, so every line number from 11 up indexes past the eleven lines | `pg_cradle_printf(11, 8, "x")` | the whole-buffer call made only for an existing line, as the loop already checks | not executed | PgCradle.PrintCallsAsWritten, PgCradle.PrintfPastLastLine | PgCradle.PrintCalls |
