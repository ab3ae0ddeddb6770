# hobo_vr message plumbing, modelled in Dafny

hobo_vr turns home-made trackers into SteamVR devices. Python *posers* read
cameras, serial devices or scripted motion and write pose packets. A small
asyncio *relay server* forwards each poser's packets to the connected
drivers. The C++ *driver* inside SteamVR cuts the byte stream into packets,
parses them, and feeds a list of tracked devices. The driver's device list
follows a layout string (the "udu" string, such as `h13 c22 c22`) that a
poser can change at run time through a settings-manager message.

This project models that plumbing and proves what it promises:

- **Framing.** Cutting a stream on a terminator loses nothing and invents
  nothing, is the same whether the stream arrives whole or in pieces, and
  recovers exactly the packets a peer sent.
- **Parsing.** Number reading, the letter filter, and the layout pattern
  `([htc][0-9]+ )*[htc][0-9]+`. Written numbers read back as themselves.
  Packets are split at the running offset.
- **Relay server.** Connections are classified from their first message.
  A broadcast reaches exactly the eligible peers, in order, never the
  sender, and stops at the first failed write.
- **Driver device list.** Active devices are parked on standby and reused
  by serial number. Settings messages are dispatched by type. Serials are
  named per device type, and the controller hand alternates.
- **Poser templates.** Pose records keep their slot order and their
  lengths of 13 and 22 values. Item access and thread registration follow
  the Python semantics, including the errors raised.
- **Small arithmetic pieces.** HSV mask bounds with hue wrap-around, crop
  clamping, eye viewports, swap-texture indices, the pose history of the
  direct-mode component, and the device base's power flags.

Each module follows one source file. The module names are:

- `SockUtil` (driver/src/ref/util.h)
- `Receiver` (driver/src/ref/receiver.h)
- `PoseUtil` (virtualreality/util/utilz.py)
- `SerialUtil` (bindings/python/virtualposers/util/utilz.py)
- `DummyDriver` (virtualreality/util/driver.py)
- `RelayServer` (virtualreality/server/server.py)
- `UduTemplate` (bindings/python/virtualreality/templates/udu_templates.py)
- `Poses` (bindings/python/virtualreality/templates/poses.py)
- `Templates` (virtualreality/templates/templates.py)
- `TemplateBase` (virtualreality/templates/template_base.py)
- `HobovrDriver` and `DeviceList` (driver/src/driver_hobovr.cpp)
- `ComRecv` (driver/src/ref/com_recv_win.h)
- `ColorCalibration` (virtualreality/calibration/manual_color_mask_calibration.py)
- `BlobFinder` (virtualreality/util/blobfinder.py)
- `Components` (driver/src/ref/hobovr_components.h)
- `DeviceBase` (driver/src/device/hobovr_device_base.h)

Four modules hold what several of these share:

- `Framing`: find, split-once, split and join, and the framing loop on a
  terminator.
- `Text`: white space, strip, lower-case, and the word tokenizer of
  `istream >> std::string`.
- `Numbers`: Python's `float()` and C++'s `std::stod` on decimal text.
- `Wrappers`: `Option` and `Result`.

Where the source changes state, the model is a class with `modifies`
clauses and `while` loops with invariants. Each such method is proved
against a function that specifies it, and the promised properties are
lemmas about that function. Pure code is modelled as functions and lemmas.
Sockets, serial ports, threads and SteamVR are replaced by explicit inputs:

- the list of results the `recv` calls return;
- the events of a run loop;
- the data a read delivers;
- the values a host call would return.

Writes to a peer are kept as a log of what was sent.

## Model

| member | source | states |
|---|---|---|
| SockUtil.SplitPk | driver/src/ref/util.h:13-31 | the loop with the running offset returns exactly the chunks of the split specification: one chunk per size, taken in turn; the first size that overruns takes the whole remaining tail, and nothing follows it |
| SockUtil.SplitPkContiguous | driver/src/ref/util.h:13-31 | the chunks are contiguous and in order: concatenated, they are the vector up to the sum of the sizes, or the whole vector when the sizes overrun it |
| SockUtil.SplitPkFits | driver/src/ref/util.h:18-22 | when the sizes fit, there is one chunk per size, and chunk k is exactly the sizes[k] elements starting at the sum of the earlier sizes |
| SockUtil.SplitPkOverrun | driver/src/ref/util.h:23-27 | when size k is the first to overrun, there are k+1 chunks and the last is the whole tail from the running offset |
| SockUtil.SplitPkOfConcat | driver/src/ref/util.h:13-31 | splitting a concatenation of chunks at the chunks' own lengths gives the chunks back |
| SockUtil.GetPosesShape | driver/src/ref/util.h:66-72 | the loop returns the length of every chunk, in order |
| SockUtil.ShapeOfSplitPk | driver/src/ref/util.h:66-72 | the shape of the split chunks equals the size list if and only if the sizes fit in the vector |
| SockUtil.RemoveMessageFromBuffer | driver/src/ref/util.h:92-98 | the bytes behind the message move to the front of the buffer, the new count is numbytes - msglen, and the bytes behind the new count are left as they were |
| SockUtil.StringsShareCharacters | driver/src/ref/util.h:117-123 | the loop returns true if and only if some character of b occurs in a |
| SockUtil.SplitToNumber | driver/src/ref/util.h:74-90 | when any token fails std::stod, the result is {0, 0}; otherwise it is each token's value, in order |
| SockUtil.ReadAll | driver/src/ref/util.h:74-90 | tokens that all read as numbers convert to exactly those numbers |
| SockUtil.SplitToNumberOfWritten | driver/src/ref/util.h:74-90 | natural numbers written in decimal and separated by spaces, split and converted, give back their values |
| Text.SplitWhitespace | driver/src/ref/util.h:107-115 | the tokens extracted by `istream >> std::string` are non-empty and contain no white space |
| Text.SplitWhitespaceOfJoin | driver/src/ref/util.h:107-115 | words without white space, joined with single spaces, are extracted back word for word |
| Receiver.ReceiveTillZero | driver/src/ref/receiver.h:25-44 | the scan-and-recv loop leaves the outcome, the buffer content and the unused recv results that the receive specification gives, and does not touch the buffer behind the new byte count |
| Receiver.ScanForEnd | driver/src/ref/receiver.h:32-37 | the scan resumes at i: it stops at the first message end ('\0' or '\n') at or after i, or at the byte count when there is none, and no earlier byte is a message end |
| Receiver.RecvInto | driver/src/ref/receiver.h:38-42 | one recv appends as much of the delivered bytes as fits behind the buffered bytes and keeps the rest pending; the receive specification of the new state is that of the old one |
| Receiver.CopyIn | driver/src/ref/receiver.h:38-42 | the received bytes land right behind the bytes already buffered, and nothing else in the buffer changes |
| Receiver.ReceiveKeeps | driver/src/ref/receiver.h:25-44 | receiving keeps the bytes already buffered, appends exactly the bytes recv delivered (the rest stay pending), and uses no more recv results than it is given |
| Receiver.ReceiveOutcome | driver/src/ref/receiver.h:25-44 | a message length i+1 is reported only when byte i is the first message end in the buffer; any other outcome leaves a buffer with no message end, and a buffer full without one is reported as stuck |
| Receiver.MessageConsumes | driver/src/ref/receiver.h:25-44 | a reported message is a text free of message ends followed by its end byte, and removing it makes progress on the stream |
| Receiver.FirstEndAt | driver/src/ref/receiver.h:32-36 | when byte i is the first message end, the message length reported is i+1 and no recv is made |
| Receiver.NoEnd | driver/src/ref/receiver.h:29-43 | without a message end: no recv results left means starved, a full buffer means stuck, and a failed recv is reported as -1 |
| Receiver.NextPacket | driver/src/ref/receiver.h:227-269 | one turn of the thread's loop yields a packet exactly when a message is reported; the packet is the text in front of the end byte, free of message ends; the bytes behind the message stay buffered at the front and the unused recv results are kept, and each packet consumes bytes |
| Receiver.UnreadablePacketIsTwoZeros | driver/src/ref/receiver.h:71-85 | a packet with an unreadable token parses as the two values {0, 0} |
| Receiver.ParseWrittenPacket | driver/src/ref/receiver.h:61-85 | natural numbers written with single spaces between them parse back to their values |
| Receiver.DriverReceiver.constructor | driver/src/ref/receiver.h:98-104 | the pose starts as eps zeros, the thread is not running, and nothing has been sent |
| Receiver.DriverReceiver.Start | driver/src/ref/receiver.h:161-176 | the thread is kept alive and "hello\n" is sent on an open socket; on a closed one send2 sends nothing |
| Receiver.DriverReceiver.Close | driver/src/ref/receiver.h:188-206 | an open socket gets "CLOSE\n" and is closed; the pose is unchanged |
| Receiver.DriverReceiver.Stop | driver/src/ref/receiver.h:178-186 | the socket is closed, the thread is told to stop, and goodbye is said once |
| Receiver.DriverReceiver.GetPose | driver/src/ref/receiver.h:208 | the last accepted pose, which has eps values |
| Receiver.DriverReceiver.Handle | driver/src/ref/receiver.h:271-281 | the pose is replaced and -1 returned exactly when the packet parses to eps numbers; otherwise the pose is unchanged and the parsed size is returned |
| Receiver.DriverReceiver.RunThread | driver/src/ref/receiver.h:227-269 | a thread started alive handles exactly the texts the repeated receive specification cuts from an empty buffer and the recv results, in order; one not alive handles none; the final pose is the result of handling them in turn, and the thread ends not alive |
| Receiver.ThreadPackets | driver/src/ref/receiver.h:237-245 | the texts of successive reported messages, each the bytes in front of its end byte and free of message ends, until a receive reports anything but a message |
| Receiver.ThreadEnds | driver/src/ref/receiver.h:237-245 | one message end byte ('\0' or '\n') per text the thread cuts |
| Receiver.ThreadPacketsPrefix | driver/src/ref/receiver.h:237-245 | the thread invents and skips nothing: its texts, each closed by its end byte, are the front of the buffered bytes followed by everything recv delivers |
| Receiver.PoseAfterAppend | driver/src/ref/receiver.h:271-281 | handling one more packet changes the pose only when that packet has eps numbers |
| PoseUtil.FormatStrForWrite | virtualreality/util/utilz.py:30-38 | empty text stays empty; other text keeps its characters and ends with exactly one appended newline, unless it already ended with one |
| PoseUtil.FormatIdempotent | virtualreality/util/utilz.py:30-38 | formatting a formatted message changes nothing |
| PoseUtil.GetNumbersFromText | virtualreality/util/utilz.py:140-159 | empty text, text with a listed letter (in either case) or a bracket, and an empty separator give []; a piece that is not a number gives []; otherwise every piece's float value, in order |
| PoseUtil.ReadWrittenNumbers | virtualreality/util/utilz.py:140-159 | natural numbers written out and joined with a separator the callers use are read back as their values |
| PoseUtil.GetPoseStructFromText | virtualreality/util/utilz.py:162-170 | when the whole text matches the layout pattern, the device letters and field counts of its words, in order; otherwise two empty tuples |
| PoseUtil.MatchesStructSplit | virtualreality/util/utilz.py:162-170 | the layout pattern matches a text if and only if every space-separated word of it is a letter h, t or c followed by digits |
| PoseUtil.ReadWrittenStruct | virtualreality/util/utilz.py:162-170 | a layout written as letter-and-count words joined with spaces is read back as those letters and counts |
| PoseUtil.ParsePosesFromPacket | virtualreality/util/utilz.py:173-176 | one pose per layout entry, and no pose longer than its size |
| PoseUtil.ParsePosesConsumes | virtualreality/util/utilz.py:173-176 | the poses consume the packet in order: concatenated, they are its first Sum(struct) items, or all of it |
| PoseUtil.ParsePosesLength | virtualreality/util/utilz.py:173-176 | pose i holds min(struct[i], the items left after the earlier poses) items |
| PoseUtil.ParsedShape | virtualreality/util/utilz.py:173-181 | get_poses_shape of the parsed poses equals the layout if and only if the packet holds at least Sum(struct) items |
| PoseUtil.ParsePosesOfConcat | virtualreality/util/utilz.py:173-176 | poses sent one after another are parsed back with their own lengths |
| PoseUtil.LazyKalman.constructor | virtualreality/util/utilz.py:202-238 | the countdown starts at train_size with an empty observation buffer |
| PoseUtil.LazyKalman.Apply | virtualreality/util/utilz.py:240-259 | an observation of the wrong shape changes nothing; with the countdown at zero, even with observations left buffered by calibrate(0), nothing changes; while counting down, it is buffered; when the count reaches zero, calibration runs once on exactly the target number of observations and the buffer is emptied |
| PoseUtil.LazyKalman.RunCalibration | virtualreality/util/utilz.py:261-271 | calibration runs on the buffered observations, which are then dropped |
| PoseUtil.LazyKalman.Calibrate | virtualreality/util/utilz.py:273-281 | a countdown of n more observations starts from any state, n = 0 included; the buffer is kept, so the batch is what is buffered plus n |
| SerialUtil.SerialReaderBinary.constructor | bindings/python/virtualposers/util/utilz.py:369-373 | the expected packet length is struct_len * type_len bytes, and there is no last packet yet |
| SerialUtil.SerialReaderBinary.HandlePacket | bindings/python/virtualposers/util/utilz.py:389-393 | a packet of another length is ignored; one of the expected length becomes the last packet as struct_len 4-byte fields that are its front, or fails to unpack when it is shorter than they need |
| SerialUtil.FieldsOfPacket | bindings/python/virtualposers/util/utilz.py:389-393 | a packet of count*size bytes is cut into count fields of size bytes that together are the packet |
| SerialUtil.FieldSizes | bindings/python/virtualposers/util/utilz.py:411-412 | the headset form '4f' takes 16 bytes and a controller form '7f5?' takes 33 |
| SerialUtil.HandleHeaded | bindings/python/virtualposers/util/utilz.py:449-467 | an unknown heading or a section shorter than calcsize(form) leaves the last packet alone; otherwise the front of the section, cut into the form's fields, becomes the last packet |
| SerialUtil.SerialReaderMultiBinary.constructor | bindings/python/virtualposers/util/utilz.py:417-422 | an empty buffer and no last packet |
| SerialUtil.SerialReaderMultiBinary.HandlePacket | bindings/python/virtualposers/util/utilz.py:449-467 | the last packet becomes what the heading rules give, and the buffer is unchanged |
| SerialUtil.SerialReaderMultiBinary.DispatchPacket | bindings/python/virtualposers/util/utilz.py:444-447 | each heading the packet holds is handled, in HEADINGS order, with the part of the packet behind it |
| SerialUtil.DispatchOneMore | bindings/python/virtualposers/util/utilz.py:444-447 | one more heading is handled with the part behind it exactly when the packet holds it |
| SerialUtil.SerialReaderMultiBinary.DataReceived | bindings/python/virtualposers/util/utilz.py:439-447 | every complete packet in front of a terminator is dispatched in order, and only the tail behind the last terminator stays buffered |
| SerialUtil.AfterOneMore | bindings/python/virtualposers/util/utilz.py:439-447 | dispatching one more packet continues from where the earlier packets left the last packet |
| SerialUtil.ReaderSeesEveryPacket | bindings/python/virtualposers/util/utilz.py:439-443 | framing a stream of terminated packets gives back exactly those packets and the unterminated tail |
| SerialUtil.RightControllerWins | bindings/python/virtualposers/util/utilz.py:444-447 | a packet with a complete right-controller section is decoded as that section, whatever headings come before it in the list |
| SerialUtil.NoHeadingIgnored | bindings/python/virtualposers/util/utilz.py:444-447 | a packet holding no heading leaves the last packet alone |
| SerialUtil.MinOf | bindings/python/virtualposers/util/utilz.py:481-483 | the minimum is an element, and no element is smaller |
| SerialUtil.MaxOf | bindings/python/virtualposers/util/utilz.py:481-483 | the maximum is an element, and no element is larger |
| SerialUtil.Cnt2XYW | bindings/python/virtualposers/util/utilz.py:478-484 | an empty contour is an error (numpy's min of an empty array raises); any other contour gives a summary |
| SerialUtil.ContourInBox | bindings/python/virtualposers/util/utilz.py:478-484 | the width is not negative; every point's x is within half the width of the centre, and the box touches the contour on both sides; the centre's y is between the contour's y values |
| SerialUtil.MarkerBounds | bindings/python/virtualposers/util/utilz.py:620-621 | three low and three high bounds |
| SerialUtil.MarkerBoundsInverse | bindings/python/virtualposers/util/utilz.py:620-621 | the bounds give the mask back: their midpoint is the centre and half their distance the range, on every channel |
| SerialUtil.MarkerMasks | bindings/python/virtualposers/util/utilz.py:620-621 | the bounds of every mask, in order |
| Numbers.ReadWrittenNumber | virtualreality/util/utilz.py:154 | both Python's float() and C++'s std::stod read the decimal text of a natural number as that number |
| Numbers.ReadNegativeDigits | driver/src/ref/receiver.h:78 | both readers read a minus sign followed by digits as the negated value |
| Numbers.WrittenWordsRead | driver/src/ref/receiver.h:76-79 | every number in a written list reads back under both readers |
| Framing.SplitOnce | virtualreality/util/driver.py:103-106 | when the terminator occurs, the text in front of its first occurrence and the text behind it, which together with the terminator are the buffer; None when it does not occur |
| Framing.Frames | virtualreality/util/driver.py:103-106 | the packets cut off in turn and the tail kept: no packet and not the tail holds the terminator |
| Framing.FramesRebuild | virtualreality/util/driver.py:103-106 | the framing loses and invents nothing: each packet followed by the terminator, and then the tail, give back the buffer |
| Framing.FramesAppend | virtualreality/util/driver.py:97-106 | framing a stream chunk by chunk, carrying the tail over, gives the same packets and tail as framing it whole |
| Framing.FramesUnique | virtualreality/util/driver.py:103-106 | with a terminator that has no border ("\n", "\t\r\n"), packets free of the terminator, each sent with it, and a tail free of it are recovered exactly |
| Framing.DrainStep | virtualreality/util/driver.py:103-106 | cutting one more packet off keeps the loop's invariant, and the buffer shrinks |
| Framing.DrainDone | virtualreality/util/driver.py:103-106 | once no terminator is left, the packets cut off are all there are and the buffer is the tail |
| Framing.Find | virtualreality/util/driver.py:103 | the first position at or after the start where the terminator occurs, or none when it does not occur there |
| Framing.FramesStep | virtualreality/util/driver.py:103-106 | splitting once on the terminator is the first step of the framing |
| Framing.FramesDone | virtualreality/util/driver.py:103 | a buffer without the terminator gives no packet and stays whole as the tail |
| Numbers.ScanDecimal | driver/src/ref/util.h:82 | the longest prefix that is an optionally signed decimal number, as std::stod reads it: at least one character and no more than the text |
| Numbers.ScanUnsigned | driver/src/ref/util.h:82 | an unsigned decimal with optional fraction and exponent, as long as it goes: at least one character and within the text |
| Numbers.ScanExponent | driver/src/ref/util.h:82 | the exponent part, within the text; an `e` without digits is not part of the number |
| Numbers.NatToString | virtualreality/templates/templates.py:374-376 | str(n) of a natural is a non-empty run of digits |
| Numbers.NatToStringValue | virtualreality/templates/templates.py:374-376 | the digits of str(n) have the value n |
| Numbers.ReadDigits | virtualreality/util/utilz.py:154 | both float() and std::stod read a run of digits as its value |
| Numbers.ScanDigits | driver/src/ref/util.h:82 | std::stod's scan of a run of digits takes the whole run, as its value |
| Numbers.StripKeeps | virtualreality/util/utilz.py:154 | float() strips nothing from a number that neither starts nor ends with white space |
| Numbers.Written | virtualreality/templates/templates.py:374-376 | each natural written as str(n) writes it, in order |
| Numbers.WrittenWords | virtualreality/templates/templates.py:372-378 | every written natural is a non-empty run of digits, free of white space |
| Text.Lower | virtualreality/util/utilz.py:148 | str.lower(): upper-case ASCII letters become lower-case, and every other character is kept |
| Text.LStrip | virtualreality/util/utilz.py:154 | the leading characters from the set are dropped, and what is left does not start with one |
| Text.RStrip | virtualreality/util/utilz.py:154 | the trailing characters from the set are dropped, and what is left does not end with one |
| Text.WordLength | driver/src/ref/util.h:107-115 | the run of non-space characters at the front, ending at a space or at the end |
| Text.SplitWhitespaceOfWord | driver/src/ref/util.h:107-115 | a word followed by nothing or by white space is extracted whole |
| Framing.SplitAll | virtualreality/util/utilz.py:154 | Python's str.split(sep): at least one piece, none holding the separator, and joining the pieces with the separator gives the text back |
| Framing.SplitAllJoin | virtualreality/templates/templates.py:372-378 | text joined with a border-free separator splits back into the pieces |
| DummyDriver.DummyDriverReceiver.constructor | virtualreality/util/driver.py:25-46 | the pose is eps zeros, the buffer is empty, and the receiver is alive |
| DummyDriver.DummyDriverReceiver.Send | virtualreality/util/driver.py:74-75 | the text is written as format_str_for_write formats it |
| DummyDriver.DummyDriverReceiver.Stop | virtualreality/util/driver.py:59-69 | the receive loop is told to end and "CLOSE\n" is sent |
| DummyDriver.DummyDriverReceiver.HandlePacket | virtualreality/util/driver.py:77-92 | a packet is taken, and True returned, exactly when the receiver is alive, the packet holds no listed letter or bracket, and it has eps numbers; then the pose becomes those numbers, and otherwise it is unchanged |
| DummyDriver.DummyDriverReceiver.Run | virtualreality/util/driver.py:94-117 | the packets handled are those framed from the buffer plus every chunk received, in order, and the tail stays buffered; the pose is that after handling them in turn; empty data or a failure ends the loop; afterwards the receiver is not alive |
| DummyDriver.DummyDriverReceiver.ReceiveAll | virtualreality/util/driver.py:95-115 | the loop consumes events until one ends it, and the packets and buffer are the framing of everything received |
| DummyDriver.DummyDriverReceiver.Receive | virtualreality/util/driver.py:97-109 | one pass adds the chunk to the buffer and handles every complete packet; the framing of the stream so far is kept |
| DummyDriver.DummyDriverReceiver.TakePackets | virtualreality/util/driver.py:103-108 | the inner loop cuts off and handles exactly the packets the framing of the buffer gives, and keeps its tail |
| DummyDriver.FlatPoseAfterStep | virtualreality/util/driver.py:84-90 | handling one more packet either takes its numbers or keeps the pose |
| DummyDriver.ZeroSizeTakesAnything | virtualreality/util/driver.py:82-90 | with an expected size of 0, a packet without letters whose numbers do not read is still taken, and the pose becomes empty |
| DummyDriver.ReceivedOneMore | virtualreality/util/driver.py:97-101 | the stream after one more event is the earlier stream followed by the event's bytes |
| DummyDriver.NewUduReceiver | virtualreality/util/driver.py:136-160 | an error exactly when the layout text does not fully match the pattern; otherwise the device order and sizes are the parsed layout, and every pose is zeros of its size |
| DummyDriver.UduDummyDriverReceiver.constructor | virtualreality/util/driver.py:150-160 | the poses are zeros of the layout's sizes, the buffer is empty, and the receiver is alive |
| DummyDriver.UduDummyDriverReceiver.Send | virtualreality/util/driver.py:188-189 | the text is written as format_str_for_write formats it |
| DummyDriver.UduDummyDriverReceiver.Stop | virtualreality/util/driver.py:173-183 | the receive loop is told to end and "CLOSE\n" is sent |
| DummyDriver.UduDummyDriverReceiver.HandlePacket | virtualreality/util/driver.py:191-211 | a packet is taken exactly when the receiver is alive, the packet has no listed letter, and its parsed poses have the layout's shape; then they replace the poses, and otherwise the poses are unchanged |
| DummyDriver.LayoutAcceptsLongPackets | virtualreality/util/driver.py:196-209 | a packet without letters is taken if and only if it holds at least as many numbers as the layout needs; numbers beyond that are dropped |
| DummyDriver.UduDummyDriverReceiver.Run | virtualreality/util/driver.py:213-236 | the same loop as the flat receiver: the packets are the framing of everything received, and the poses are those after handling them in turn |
| DummyDriver.UduDummyDriverReceiver.ReceiveAll | virtualreality/util/driver.py:214-234 | the loop consumes events until one ends it, and the packets and buffer are the framing of everything received |
| DummyDriver.UduDummyDriverReceiver.Receive | virtualreality/util/driver.py:216-227 | one pass adds the chunk to the buffer and handles every complete packet |
| DummyDriver.UduDummyDriverReceiver.TakePackets | virtualreality/util/driver.py:222-227 | the inner loop cuts off and handles exactly the packets the framing of the buffer gives |
| DummyDriver.LayoutPosesAfterStep | virtualreality/util/driver.py:201-209 | handling one more packet either takes its poses or keeps the poses handled so far |
| RelayServer.Flags | virtualreality/server/server.py:46 | flag 2 holds exactly for the ids b'hello' and b'holla', flag 3 exactly for b'holla', so a poser always has flag 2 |
| RelayServer.SplitFirstRead | virtualreality/server/server.py:44 | when the first read unpacks, the id, a newline and the payload give back the read, and neither part holds a newline |
| RelayServer.SplitFirstReadOfWritten | virtualreality/server/server.py:44 | an id line and a payload without newlines are read back as written |
| RelayServer.SplitFirstReadWithoutNewline | virtualreality/server/server.py:44 | a first read without a newline cannot be unpacked, which ends the handler with an error |
| RelayServer.Recipients | virtualreality/server/server.py:30-31 | exactly the registered connections that pass send_to_all's test, in registry order |
| RelayServer.DeliveryIsPrefix | virtualreality/server/server.py:27-36 | a broadcast reaches a prefix of its recipients: all of them when no write fails, and otherwise stops at the first recipient with a broken writer; it fails exactly when some recipient's writer is broken |
| RelayServer.NoEcho | virtualreality/server/server.py:31 | the sender never receives its own message |
| RelayServer.RelayedCount | virtualreality/server/server.py:62-76 | the loop relays every read before the first one that is empty, holds the close message, or fails, and stops there |
| RelayServer.BroadcastsShape | virtualreality/server/server.py:62-76 | relaying n chunks makes one write per chunk and delivered connection, each carrying one of the relayed chunks, and never writes to the sender |
| RelayServer.RemoveFirst | virtualreality/server/server.py:78-79 | list.remove drops one record equal to the one given, and keeps all the others |
| RelayServer.RemoveAppended | virtualreality/server/server.py:47-79 | adding a record that was not present and then removing it gives the registry back |
| RelayServer.Server.constructor | virtualreality/server/server.py:10-21 | no connections, nothing written and nothing closed |
| RelayServer.Server.SendToAll | virtualreality/server/server.py:27-36 | the writes made are the message to each delivered connection, in order, and a failed write is reported as a lost message; the registry is unchanged |
| RelayServer.Server.Serve | virtualreality/server/server.py:39-87 | an unreadable first read ends with an error and changes nothing. Otherwise the record is added unless an equal one is present, a non-empty first payload is relayed, and every relayable chunk is relayed. Then the record is removed and the writer closed; a new connection leaves the registry as it was |
| RelayServer.Server.RelayLoop | virtualreality/server/server.py:62-76 | the loop relays exactly the relayable reads, each broadcast as send_to_all would |
| Poses.NameInjective | bindings/python/virtualreality/templates/poses.py:103-117 | no two slots of a record share an attribute name |
| Poses.SlotNames | bindings/python/virtualreality/templates/poses.py:103-117 | the names of __slots__, one per slot and in slot order |
| Poses.Len | bindings/python/virtualreality/templates/poses.py:184-185 | a Pose has 13 values and a ControllerState 22: one per slot and one per value get_vals lists |
| Poses.SlotsInOrder | bindings/python/virtualreality/templates/poses.py:191-214 | no slot is listed twice: each sits at its own position, the Pose slots first |
| Poses.SlotMembership | bindings/python/virtualreality/templates/poses.py:161-165 | a record lists a slot exactly when it has that attribute, and the slot sits at its ordinal |
| Poses.ValueAtOrdinal | bindings/python/virtualreality/templates/poses.py:143-159 | get_vals puts each attribute at its slot's position |
| Poses.GetSlotValues | bindings/python/virtualreality/templates/poses.py:291-294 | reading every slot in turn gives exactly the list get_vals writes out field by field |
| Poses.Lookup | bindings/python/virtualreality/templates/poses.py:162 | finds a slot named by the key exactly when there is one, and the slot found has that name |
| Poses.LookupIsTheSlot | bindings/python/virtualreality/templates/poses.py:162-163 | the slot with a given name is unique among a record's slots, and the record has it |
| Poses.GetItem | bindings/python/virtualreality/templates/poses.py:161-165 | a KeyError carrying the key exactly when no slot of the record has that name; otherwise the value of that slot |
| Poses.KeyMissing | bindings/python/virtualreality/templates/poses.py:165 | a key that names no slot gives KeyError(key) |
| Poses.KeyFound | bindings/python/virtualreality/templates/poses.py:162-163 | a key that names a slot gives that slot's attribute |
| Poses.NewPose | bindings/python/virtualreality/templates/poses.py:119-141 | the record's values are the 7 position and rotation values, then the 6 velocities |
| Poses.NewControllerState | bindings/python/virtualreality/templates/poses.py:216-256 | the record's values are position and rotation, velocities, then the 9 inputs in slot order |
| Poses.DefaultPoseIsIdentity | bindings/python/virtualreality/templates/poses.py:119 | a default Pose sits at the origin, unrotated and at rest: every value is 0 except r_w, which is 1 |
| Poses.ControllerExtendsPose | bindings/python/virtualreality/templates/poses.py:188-216 | a ControllerState starts with the Pose slots, and its first 13 values are those of the Pose built from the same position and velocity |
| Poses.SetItemAsWritten | bindings/python/virtualreality/templates/poses.py:167-174 | as written, every assignment fails, because the numbers module is not imported |
| Poses.SetItemAlwaysFails | bindings/python/virtualreality/templates/poses.py:168 | even a number written to a listed slot raises NameError, while reading that slot works |
| Poses.SetAttr | bindings/python/virtualreality/templates/poses.py:171 | the given slot takes the value, every other attribute keeps its own, and the slots stay the same |
| Poses.SetItem | bindings/python/virtualreality/templates/poses.py:167-174 | a non-number fails the assertion, and a number with an unknown key raises KeyError(key); otherwise only the slot named by the key changes, to the value |
| Poses.SetThenGet | bindings/python/virtualreality/templates/poses.py:161-174 | reading back a slot just assigned gives the assigned number |
| UduTemplate.DeviceTypes | bindings/python/virtualreality/templates/udu_templates.py:69 | split(" ") of a valid udu string is its type letters, one per device and in order; there is at least one |
| UduTemplate.DefaultRecord | bindings/python/virtualreality/templates/udu_templates.py:72-77 | 'c' gets a ControllerState of 22 values, and 'h' and 't' get a Pose of 13 |
| UduTemplate.TypeCode | bindings/python/virtualreality/templates/udu_templates.py:121 | the type code is below 3, and the announced size is the length of the device's default record |
| UduTemplate.Pairs | bindings/python/virtualreality/templates/udu_templates.py:122-126 | the flattened pairs hold each device's type code and size at positions 2i and 2i+1 |
| UduTemplate.UduPacket | bindings/python/virtualreality/templates/udu_templates.py:120-133 | for at most 64 devices: message type 20, the device count, each device's pair in order, then zeros up to 128 payload words; for more devices the padding cannot be built |
| UduTemplate.UduMessage | bindings/python/virtualreality/templates/udu_templates.py:141-143 | the message ends with the terminator |
| UduTemplate.PackRecordLength | bindings/python/virtualreality/templates/udu_templates.py:142 | a record packs into four bytes per value |
| UduTemplate.PackAllLength | bindings/python/virtualreality/templates/udu_templates.py:141-142 | all records pack into four bytes per value of the layout |
| UduTemplate.MessageLength | bindings/python/virtualreality/templates/udu_templates.py:141-143 | the message is four bytes per value of the layout, plus the terminator |
| UduTemplate.UduPoserTemplate.constructor | bindings/python/virtualreality/templates/udu_templates.py:48-88 | for a valid udu string: the base poser as the base class builds it, the device types of the string, and one default record per device |
| UduTemplate.UduPoserTemplate.SyncUdu | bindings/python/virtualreality/templates/udu_templates.py:90-135 | an invalid string changes nothing. A valid one replaces the records with defaults for the new layout and leaves device_types as it was. It yields the settings packet, or fails building it when there are more than 64 devices |
| UduTemplate.UduPoserTemplate.Send | bindings/python/virtualreality/templates/udu_templates.py:137-154 | every write carries all records packed and the terminator, a failed write ends the loop, and the send trigger ends stopped |
| UduTemplate.BuildRecords | bindings/python/virtualreality/templates/udu_templates.py:71-79 | the loop builds one default record per device type, in order |
| UduTemplate.Create | bindings/python/virtualreality/templates/udu_templates.py:60-66 | RuntimeError exactly when the string is not wholly a udu string; otherwise a poser with the string's device types and their default records |
| UduTemplate.HeadsetAndTwoControllers | bindings/python/virtualreality/templates/udu_templates.py:121-133 | "h c c" is announced as 3 devices with the pairs (0,13), (1,22), (1,22) |
| Templates.Shown | virtualreality/templates/templates.py:374-376 | one printed word per value, in order |
| Templates.Values | virtualreality/templates/templates.py:374-376 | as many values as the three records hold together |
| Templates.ValuesInOrder | virtualreality/templates/templates.py:374-376 | the headset's values come first, then the right controller's, then the left controller's |
| Templates.PoseMessage | virtualreality/templates/templates.py:372-378 | the line send builds from the three records is never empty and ends with its newline |
| Templates.MessageSplitsIntoValues | virtualreality/templates/templates.py:372-378 | when each printed number is one word, the line ends in a newline, and splitting the rest on spaces gives back one word per value in order: 57 in all |
| Templates.ShownWords | virtualreality/templates/templates.py:373-376 | every printed value is a word without a space, and the last one is not empty |
| Templates.PoserTemplate.constructor | virtualreality/templates/templates.py:317-350 | coro_list holds the callable names that are not private or excepted, and the triggers are close, send and recv. The headset is at the default pose, and the right and left controllers are at (0.5, 1, -1) and (0.5, 1.1, -1), unrotated, at rest and with no input pressed |
| Templates.PoserTemplate.SocketInit | virtualreality/templates/templates.py:352-366 | the id message "poser here" is sent, formatted for write, and nothing else changes |
| Templates.PoserTemplate.Record | virtualreality/templates/templates.py:347-349 | the headset's record is a Pose, and a controller's is a ControllerState |
| Templates.PoserTemplate.SetItem | virtualreality/templates/templates.py:154-161 | the addressed record changes exactly as item assignment on it does, error or not, and the other records do not change |
| Templates.PoserTemplate.Line | virtualreality/templates/templates.py:372-378 | the line for the poser's current records is one newline-terminated line |
| Templates.PoserTemplate.Send | virtualreality/templates/templates.py:368-386 | every write is the line of the current poses. A failed write stops the send trigger and the loop. Without a failure every write is made. A stopped trigger writes nothing |
| Templates.PoserTemplate.SendLine | virtualreality/templates/templates.py:370-386 | the loop of send for a fixed line, with the same outcomes |
| Templates.PoserTemplate.Recv | virtualreality/templates/templates.py:388-399 | last_read is the data of the last line read. A failed read stops the recv trigger and the loop. A stopped trigger reads nothing |
| Templates.PoserTemplate.Close | virtualreality/templates/templates.py:401-427 | every trigger is set to stop and "CLOSE" is sent, formatted for write |
| Templates.PoserTemplate.ThreadRegister | virtualreality/templates/templates.py:499-537 | a plain function without the executor flag raises ValueError. A new name gets a live trigger and joins coro_list. A known name raises NameError and changes nothing |
| Templates.GotData | virtualreality/templates/templates.py:390-393 | at most one datum per line, and a last line that was read is the last datum |
| Templates.GotDataStep | virtualreality/templates/templates.py:390-393 | reading one more line adds its data, if it brought any |
| Templates.ReadLines | virtualreality/templates/templates.py:390-399 | last_read ends as the last line read. Every line before the last one used was read. The loop stops at the first failed read, or at the end of the lines |
| Templates.RegisterThread | virtualreality/templates/templates.py:443-474 | a plain function without the executor flag raises ValueError. A trigger is added exactly when the name is in coro_list and has no trigger yet; otherwise only a warning is given |
| TemplateBase.CoroList | virtualreality/templates/template_base.py:84-90 | a name is in coro_list exactly when it is one of the callable names, does not start with '_', and is not excepted |
| TemplateBase.CoroListAppend | virtualreality/templates/template_base.py:84-90 | the comprehension keeps the order of dir(): filtering two lists one after the other gives the two filtered lists one after the other |
| TemplateBase.Stopped | virtualreality/templates/template_base.py:169-175 | the same triggers, every one stopped, each keeping its delay |
| TemplateBase.LastOr | virtualreality/templates/template_base.py:130-133 | last_read is the last message cut off, or stays as it was when none was |
| TemplateBase.LastOrAppend | virtualreality/templates/template_base.py:123-133 | cutting messages off in two rounds leaves the same last_read as cutting them all off at once |
| TemplateBase.ReadOneMore | virtualreality/templates/template_base.py:127-128 | after one more read, the back buffer's bytes are the earlier ones followed by the chunk's |
| TemplateBase.RecvKeepsLastMessage | virtualreality/templates/template_base.py:122-133 | whatever chunks the messages arrive in, recv ends up holding the last complete message, and the unterminated rest stays in the back buffer |
| TemplateBase.PoserTemplateBase.constructor | virtualreality/templates/template_base.py:64-99 | coro_list is computed before a client adds thread_register to the exceptions; the triggers are close (0.1), send and recv, all alive; nothing is read or sent |
| TemplateBase.PoserTemplateBase.SocketInit | virtualreality/templates/template_base.py:101-114 | the id message "holla" is sent, formatted for write, and nothing else changes |
| TemplateBase.PoserTemplateBase.Launched | virtualreality/templates/template_base.py:198-204 | main gathers exactly the names in coro_list that are not excepted |
| TemplateBase.PoserTemplateBase.Recv | virtualreality/templates/template_base.py:120-139 | last_read is the last complete message in everything read, and the back buffer is what follows it. A failed read stops the recv trigger and the loop. A stopped trigger reads nothing |
| TemplateBase.PoserTemplateBase.Close | virtualreality/templates/template_base.py:168-182 | every trigger is stopped and "CLOSE" is sent, formatted for write |
| TemplateBase.PoserTemplateBase.RegisterMemberThread | virtualreality/templates/template_base.py:207-255 | a plain function without the executor flag raises ValueError. An excepted name only warns. A trigger is added exactly when the name is new, in coro_list and not excepted. Any other name raises NameError |
| TemplateBase.PoserTemplateBase.ThreadRegister | virtualreality/templates/template_base.py:270-315 | a plain function without the executor flag raises ValueError. A new name gets a live trigger and joins coro_list. A known name raises NameError and changes nothing |
| TemplateBase.ReadChunks | virtualreality/templates/template_base.py:123-139 | the loop's last_read and back buffer are the framing of the bytes read. Every chunk before the last one used was read. The loop stops at the first failed read, or at the end of the chunks |
| TemplateBase.TakeMessages | virtualreality/templates/template_base.py:130-133 | the inner loop leaves last_read as the last complete message of the buffer, and the buffer as the rest after it |
| TemplateBase.WriteAll | bindings/python/virtualreality/templates/udu_templates.py:139-153 | every write carries the message; the loop stops at the first failed write, and otherwise makes every write |
| TemplateBase.StopAll | virtualreality/templates/template_base.py:170-175 | the loop over the keys stops every trigger and keeps each delay |
| TemplateBase.NotExcepted | virtualreality/templates/template_base.py:199-203 | the names that are not excepted, exactly; the main of both poser templates gathers these (templates.py gathers them the same way) |
| HobovrDriver.ToInt32 | driver/src/driver_hobovr.cpp:767 | the count word read into an int lies in the int32 range and is congruent to the word modulo 2^32 |
| HobovrDriver.TypeName | driver/src/driver_hobovr.cpp:775-780 | codes 0, 1 and 2 get a device letter; any other code leaves the letter empty |
| HobovrDriver.PairsFrom | driver/src/driver_hobovr.cpp:768-783 | slot i holds the letter of word 2+2i and the size in word 3+2i read into an int, negative exactly when that word is 2^31 or more |
| HobovrDriver.UduPairsAsWritten | driver/src/driver_hobovr.cpp:766-784 | as written, the decode reads as many slots as the count word says; a positive count that reaches past the request's words reads out of bounds |
| HobovrDriver.UduPairs | driver/src/driver_hobovr.cpp:766-784 | the corrected decode stays within the slots the request holds; slot i is the letter of word 2+2i and word 3+2i read into an int |
| HobovrDriver.UduPairsAgree | driver/src/driver_hobovr.cpp:766-784 | wherever the decode as written stays in bounds, the corrected one reads the same pairs |
| HobovrDriver.UduOverread | driver/src/driver_hobovr.cpp:767-769 | a 130-word request counting 65 devices makes the decode as written read past its end, while the corrected one stops at 64 slots |
| HobovrDriver.PacketWords | driver/src/driver_hobovr.cpp:771-773 | every word of a udu poser's layout request is below 2^31, so no size it announces reads back negative |
| HobovrDriver.UduRoundTrip | driver/src/driver_hobovr.cpp:766-784 | the layout request a udu poser sends decodes to one pair per device in order: the device's type letter and the size of its record |
| HobovrDriver.PoserLayoutKinds | driver/src/driver_hobovr.cpp:1378-1393 | the device list rebuilt from a poser's layout has one device per device of the poser, of the same type and in order |
| HobovrDriver.KeysOf | driver/src/driver_hobovr.cpp:754-895 | only the ipd, pose time offset, distortion and eye gap requests write settings |
| HobovrDriver.Reply | driver/src/driver_hobovr.cpp:761-899 | "2000" exactly for the six known request types, and "-100" for any other |
| HobovrDriver.Globals.constructor | driver/src/driver_hobovr.cpp:715-718 | the layout buffer and the event queue start empty |
| HobovrDriver.SettManager.constructor | driver/src/driver_hobovr.cpp:724-742 | no settings, replies or pose updates, and no object id yet |
| HobovrDriver.SettManager.Activate | driver/src/driver_hobovr.cpp:903-905 | the object id is the one given, and nothing else changes |
| HobovrDriver.SettManager.OnPacket | driver/src/driver_hobovr.cpp:745-900 | a length other than 523 changes nothing. Otherwise the reply is that of the type, and exactly the type's settings are written, from its words. A udu request stores the decoded layout and queues one UduChange event. A self-pose request reports the position once activated |
| HobovrDriver.FirstUnknown | driver/src/driver_hobovr.cpp:1186-1240 | every entry before it names a device type, and the entry at it does not |
| HobovrDriver.Names | driver/src/driver_hobovr.cpp:1384-1388 | the letters of the layout pairs, in order |
| HobovrDriver.Sizes | driver/src/driver_hobovr.cpp:1384-1388 | the pose sizes of the layout pairs, in order |
| HobovrDriver.FindSerial | driver/src/driver_hobovr.cpp:1448 | std::find_if: the first device with the serial, or none when no device has it |
| HobovrDriver.SerialSearch | driver/src/driver_hobovr.cpp:1432-1448 | looking a device up by its serial string finds the same device as looking it up by type and counter |
| HobovrDriver.ServerDriver.constructor | driver/src/driver_hobovr.cpp:1101-1138 | no devices, none on standby, an empty layout, and no layout change under way |
| HobovrDriver.ServerDriver.Advance | driver/src/driver_hobovr.cpp:1180-1236 | the counters and controller_hs after one more entry: the next device of each type is numbered by its counter, and controllers alternate hands starting with 1 |
| HobovrDriver.ServerDriver.CreateDevice | driver/src/driver_hobovr.cpp:1453-1463 | a new powered device with the entry's serial, and its hand for a controller, is added and announced; nothing else changes |
| HobovrDriver.ServerDriver.TakeBack | driver/src/driver_hobovr.cpp:1448-1452 | the standby device with the entry's serial is powered on and moved to the active devices |
| HobovrDriver.ServerDriver.PlaceEntry | driver/src/driver_hobovr.cpp:1432-1466 | one entry: the device it names is placed, taken back from standby or created |
| HobovrDriver.ServerDriver.Settled | driver/src/driver_hobovr.cpp:1398-1544 | once a whole layout is placed, active devices are on, standby ones off, no serial is used twice, and controllers have their hands |
| HobovrDriver.ServerDriver.Init | driver/src/driver_hobovr.cpp:1140-1256 | a receiver that fails to start gives WebServerFailed and changes nothing. Otherwise there is one new device per entry up to the first entry naming no type, which gives ConfigFailedSanityCheck. With no such entry the settings manager is added too |
| HobovrDriver.ServerDriver.AddManifest | driver/src/driver_hobovr.cpp:1186-1240 | the loop creates one device per entry and stops at the first entry naming no type; it completes exactly when there is none |
| HobovrDriver.ServerDriver.ManifestStep | driver/src/driver_hobovr.cpp:1186-1240 | an entry naming a type lets the loop go on past it, and extends the kinds placed |
| HobovrDriver.ServerDriver.FinishManifest | driver/src/driver_hobovr.cpp:1236-1240 | the loop stops exactly at the first entry naming no type, with every device valid |
| HobovrDriver.ServerDriver.AddEntry | driver/src/driver_hobovr.cpp:1186-1234 | entry i of Init's layout, which names a type: a new device of its type, counted, so that the loop's state covers one more entry |
| HobovrDriver.ServerDriver.OnPacket | driver/src/driver_hobovr.cpp:1316-1350 | a packet is taken exactly when no size is negative, its length is the expected size in floats plus 3 and no layout change is under way; device i then gets the i-th slice of the layout's sizes |
| HobovrDriver.ServerDriver.UpdateServerDeviceList | driver/src/driver_hobovr.cpp:1398-1545 | every active device is powered off and set aside. Each layout entry naming a type then takes back the set-aside device with its serial, or creates one. The rest stay on standby, and the layout buffer is emptied |
| HobovrDriver.ServerDriver.SetAsideAll | driver/src/driver_hobovr.cpp:1399-1422 | every active device is powered off and appended to standby, and no device is active |
| HobovrDriver.ServerDriver.PlaceLayout | driver/src/driver_hobovr.cpp:1424-1542 | the loop places one device per entry naming a type, with every device valid after it |
| HobovrDriver.ServerDriver.PlaceName | driver/src/driver_hobovr.cpp:1432-1541 | an entry naming a type is placed, and any other entry is skipped |
| HobovrDriver.ServerDriver.OnUduChange | driver/src/driver_hobovr.cpp:1378-1393 | the receiver's layout becomes the stored one, and the device list is rebuilt from it: one device per entry naming a type, taken back by serial or created, the others on standby, and exactly the new serials announced; no layout change is under way afterwards |
| HobovrDriver.ServerDriver.RunFrame | driver/src/driver_hobovr.cpp:1353-1396 | every pending event is delivered. Without a UduChange event nothing changes. The first one installs the stored layout as the receiver's, rebuilds the devices for it (each entry's device taken back by serial or created, the rest on standby) and announces exactly the new serials; the layout buffer ends empty. Since that empties the buffer, a second one in the same frame installs the empty layout: no device stays active, every device of the first rebuild and its standby list is on standby, and the pose sizes are empty |
| HobovrDriver.ServerDriver.Deliver | driver/src/driver_hobovr.cpp:1355-1393 | one event: a UduChange event moves the frame's state one change on, any other leaves it |
| HobovrDriver.ServerDriver.Change | driver/src/driver_hobovr.cpp:1378-1393 | a UduChange event: the first of a frame rebuilds for the stored layout, a later one for the empty layout |
| HobovrDriver.EmptyRebuild | driver/src/driver_hobovr.cpp:1378-1393 | a rebuild for the empty layout leaves no active device, keeps every device on standby, installs empty names and sizes, and announces nothing |
| DeviceList.Letter | driver/src/driver_hobovr.cpp:1433-1434 | every type has a one-letter name |
| DeviceList.KindOf | driver/src/driver_hobovr.cpp:1186-1240 | "h", "c" and "t" name a type, whose letter is the entry itself; any other entry names none |
| DeviceList.SerialInjective | driver/src/driver_hobovr.cpp:1433 | two serials are the same string exactly when they have the same type and counter |
| DeviceList.KnownKinds | driver/src/driver_hobovr.cpp:1430-1541 | the types the entries name, in order; other entries are skipped |
| DeviceList.FreshNode | driver/src/driver_hobovr.cpp:1453-1463 | the device made for entry j has its type, the count of earlier entries of that type as its counter, and for a controller the hand controller_hs gives; it is powered |
| DeviceList.FindKey | driver/src/driver_hobovr.cpp:1448 | the first device with the key, or none when no device has it |
| DeviceList.Placement | driver/src/driver_hobovr.cpp:1448-1464 | entry j ends up as a powered device with the serial the entry claims |
| DeviceList.Off | driver/src/driver_hobovr.cpp:1399-1419 | every device, in order, powered off |
| DeviceList.CountGrows | driver/src/driver_hobovr.cpp:1465 | a device listed later has a larger counter than every earlier device of its type |
| DeviceList.ClaimStep | driver/src/driver_hobovr.cpp:1432-1466 | the entry added last claims the next serial of its type, which no earlier entry claimed |
| DeviceList.ClaimsDistinct | driver/src/driver_hobovr.cpp:1430-1541 | the serials a layout claims are all different |
| DeviceList.PlacedUnique | driver/src/driver_hobovr.cpp:1430-1541 | placed devices have distinct serials, all claimed by the layout, and are powered |
| DeviceList.UniqueAcross | driver/src/driver_hobovr.cpp:1398-1544 | after a rebuild, no serial is on both the active and the standby list, or twice on either |
| DeviceList.PlaceReused | driver/src/driver_hobovr.cpp:1448-1452 | taking a standby device back for the next entry keeps the placement and the standby invariant for the longer layout |
| DeviceList.PlaceNew | driver/src/driver_hobovr.cpp:1453-1463 | creating a device when no standby device has the entry's serial keeps both invariants for the longer layout |
| DeviceList.FreshLast | driver/src/driver_hobovr.cpp:1453-1465 | the device made for the last entry has the current counter of its type and, for a controller, the current hand |
| DeviceList.PoolUnique | driver/src/driver_hobovr.cpp:1399-1422 | moving the active devices, powered off, behind the standby ones keeps every serial distinct |
| DeviceList.PlacedHands | driver/src/driver_hobovr.cpp:1467-1505 | placing a layout keeps every controller on the hand its counter gives, whether taken back or created |
| DeviceList.StandbyFinds | driver/src/driver_hobovr.cpp:1448 | searching standby for the next entry's serial finds a device exactly when the driver owned one with that serial |
| DeviceList.NewSerials | driver/src/driver_hobovr.cpp:1453-1463 | at most one new device per entry |
| DeviceList.NewSerialsOfNothing | driver/src/driver_hobovr.cpp:1186-1234 | with nothing to take back, a layout creates one device per entry |
| DeviceList.NewSerialsStep | driver/src/driver_hobovr.cpp:1448-1463 | one more entry creates a device exactly when the driver owns none with its serial |
| DeviceList.AllKnown | driver/src/driver_hobovr.cpp:1186-1240 | when every entry names a type, entry i gets the i-th device, of its type |
| DeviceList.HandStep | driver/src/driver_hobovr.cpp:1210 | controller_hs flips with every controller |
| ComRecv.CountSpaces | driver/src/ref/com_recv_win.h:41-46 | at most one space per character |
| ComRecv.FirstNul | driver/src/ref/com_recv_win.h:57 | no NUL comes before the index, and a NUL is at it when it lies inside the array |
| ComRecv.CString | driver/src/ref/com_recv_win.h:57 | the text `ss << buffer` takes: a prefix of the array holding no NUL |
| ComRecv.Zeros | driver/src/ref/com_recv_win.h:155-159 | n zeros, and none for a negative n |
| ComRecv.Readings | driver/src/ref/com_recv_win.h:62 | one reading per word, each as a stod-style read takes it |
| ComRecv.Cap | driver/src/ref/com_recv_win.h:47-51 | the count cut to the expected size: never above the count, and equal to the expected size when the count reaches it |
| ComRecv.Extracted | driver/src/ref/com_recv_win.h:59-64 | n extractions push exactly n values |
| ComRecv.ExtractOne | driver/src/ref/com_recv_win.h:62 | a healthy stream with a number left reads it. The stream fails exactly when it had failed, has no word left, or meets a word that is not a number. A failed or exhausted stream leaves temp as it was |
| ComRecv.ExtractedNumbers | driver/src/ref/com_recv_win.h:61-64 | while every word read so far is a number, extraction gives those numbers, word for word |
| ComRecv.ExtractedAfterFailure | driver/src/ref/com_recv_win.h:61-64 | once the stream fails, every later extraction pushes the value it failed with again |
| ComRecv.SpacesOfJoin | driver/src/ref/com_recv_win.h:41-47 | words joined by single spaces count one space fewer than there are words |
| ComRecv.Stop | driver/src/ref/com_recv_win.h:69 | cleanCharList stops at the first NUL or at len, whichever comes first |
| ComRecv.Cleaned | driver/src/ref/com_recv_win.h:69-73 | before the stop, every newline becomes a space and nothing else changes; from the stop on the buffer is as it was |
| ComRecv.CleanedTwice | driver/src/ref/com_recv_win.h:67-75 | cleaning keeps the NULs where they are, so cleaning again changes nothing |
| ComRecv.ReadPose | driver/src/ref/com_recv_win.h:149-161 | a packet with fewer values than expected gives expectedPoseSize zeros; otherwise the values extracted |
| ComRecv.SocketPoser.constructor | driver/src/ref/com_recv_win.h:166-180 | newPose is expectedPoseSize zeros |
| ComRecv.SocketPoser.Convert2ss | driver/src/ref/com_recv_win.h:39-65 | the count is the spaces before len, plus one. newPose becomes what the stream extracts from the buffer's text, as many values as the count capped at expectedPoseSize |
| ComRecv.SocketPoser.SpacesBefore | driver/src/ref/com_recv_win.h:41-46 | the loop counts the spaces among the first len characters |
| ComRecv.SocketPoser.Extract | driver/src/ref/com_recv_win.h:59-64 | the loop pushes exactly the values of n extractions |
| ComRecv.SocketPoser.CleanCharList | driver/src/ref/com_recv_win.h:67-75 | the buffer is cleaned up to the stop, and the stop minus one is given back |
| ComRecv.SocketPoser.CopyPrefix | driver/src/ref/com_recv_win.h:141-143 | the first n received characters go to the front of the copy buffer, and the rest stays |
| ComRecv.SocketPoser.GetPose | driver/src/ref/com_recv_win.h:139-164 | the received bytes are copied. A positive length reads the pose from the copy: expected-size zeros when the packet has too few values, the extracted values otherwise. A non-positive length leaves the pose as it was. The pose is returned |
| ComRecv.SocketPoser.CheckSize | driver/src/ref/com_recv_win.h:149-161 | a pose shorter than expected is replaced by zeros |
| ComRecv.ReadWrittenPose | driver/src/ref/com_recv_win.h:139-164 | a packet of n written naturals separated by single spaces, with n the expected size, reads back as those n values |
| ComRecv.ReadWrittenWords | driver/src/ref/com_recv_win.h:59-64 | extracting as many values as there are written words gives the numbers back |
| ColorCalibration.ChannelMax | virtualreality/calibration/manual_color_mask_calibration.py:126-129 | the channel's top value: 180 for hue, 255 for saturation and value |
| ColorCalibration.Lows | virtualreality/calibration/manual_color_mask_calibration.py:111-115 | one lower bound per channel, centre minus range |
| ColorCalibration.Highs | virtualreality/calibration/manual_color_mask_calibration.py:117-121 | one upper bound per channel, centre plus range |
| ColorCalibration.WrapChannel | virtualreality/calibration/manual_color_mask_calibration.py:130-137 | for every value of the channel, the main band and the wrapped band together accept exactly the range wrapped around the channel's ends. A band starting below 0 is cut at 0 and continues from max + low to max; one ending above max is cut at max and continues from 0 to high - max |
| ColorCalibration.WrapBands | virtualreality/calibration/manual_color_mask_calibration.py:123-137 | the loop gives every channel the wrap rule with its own top value |
| ColorCalibration.GetColorMask | virtualreality/calibration/manual_color_mask_calibration.py:110-142 | on every channel a value passes the mask exactly when it lies in centre - range .. centre + range, wrapped around the channel's ends |
| ColorCalibration.Spacing | virtualreality/calibration/manual_color_mask_calibration.py:71 | 180 // n: the largest spacing of which n fit in 180 |
| ColorCalibration.EvenRange | virtualreality/calibration/manual_color_mask_calibration.py:72-75 | colour i is centred at i times the spacing on every channel, with the spacing as its range |
| ColorCalibration.NewCalibrationData | virtualreality/calibration/manual_color_mask_calibration.py:54-75 | no colours fails with a division by zero. Otherwise the settings are stored, and there is one evenly spaced range per colour; a negative count gives none |
| ColorCalibration.EvenRangesSpread | virtualreality/calibration/manual_color_mask_calibration.py:71-75 | with at most 180 colours the hue centres climb by the spacing and stay below 180, and each band reaches its neighbours' centres |
| ColorCalibration.EvenHuesCovered | virtualreality/calibration/manual_color_mask_calibration.py:71-75 | every whole hue from 0 to n times the spacing passes the hue mask of some colour |
| BlobFinder.Trunc | virtualreality/util/blobfinder.py:20-28 | Python's int() of a float: truncation toward zero |
| BlobFinder.TruncWhole | virtualreality/util/blobfinder.py:20-28 | truncation leaves a whole number as it is |
| BlobFinder.TruncLows | virtualreality/util/blobfinder.py:19-23 | each lower bound is centre minus range, truncated |
| BlobFinder.TruncHighs | virtualreality/util/blobfinder.py:25-29 | each upper bound is centre plus range, truncated |
| BlobFinder.MaskForHsvRange | virtualreality/util/blobfinder.py:16-49 | the wrap rule of get_color_mask applied to the truncated bounds: a value passes exactly when it lies in the truncated band, wrapped around the channel's ends |
| BlobFinder.WholeBoundsAgree | virtualreality/util/blobfinder.py:16-49 | for whole bounds, mask_for_hsv_range and get_color_mask build the same bands |
| BlobFinder.EvenRangeWhole | virtualreality/calibration/manual_color_mask_calibration.py:71-75 | every range of an even calibration has whole bounds |
| BlobFinder.CropSpan | virtualreality/util/blobfinder.py:60-63 | for a size of at least 2, the start lies in 0 .. size - 2 and the end lies after it, at most size - 1 |
| BlobFinder.CropEnds | virtualreality/util/blobfinder.py:59-64 | both axes of the crop window lie inside the image, each end after its start |
| BlobFinder.CropHoldsBlob | virtualreality/util/blobfinder.py:59-64 | a blob well inside the image is cropped whole |
| BlobFinder.Enumerate | virtualreality/util/blobfinder.py:91 | each index with its element, in order |
| BlobFinder.ReversedEnumerate | virtualreality/util/blobfinder.py:11-13 | as written: the pairs run from the last index down to index 1, each with its own element, and index 0 never comes |
| BlobFinder.ReversedEnumerateAll | virtualreality/util/blobfinder.py:11-13 | corrected: every index, last first, each with its own element |
| BlobFinder.FirstNonzero | virtualreality/util/blobfinder.py:91-94 | nothing exactly when no pair is marked; otherwise the index of the first marked pair |
| BlobFinder.FirstMarked | virtualreality/util/blobfinder.py:91-94 | the `next(...)` scan over `enumerate` reports only a marked pixel of the row |
| BlobFinder.LastMarkedAsWritten | virtualreality/util/blobfinder.py:92 | as written, the scan over `reversed_enumerate` reports only a marked pixel, and never pixel 0 |
| BlobFinder.LastMarked | virtualreality/util/blobfinder.py:92 | the corrected scan, over every index from the last, reports only a marked pixel of the row |
| BlobFinder.FirstMarkedIsFirst | virtualreality/util/blobfinder.py:91 | the left edge is the lowest marked pixel, or nothing when no pixel is marked |
| BlobFinder.LastMarkedIsLast | virtualreality/util/blobfinder.py:92 | the corrected right edge is the highest marked pixel, or nothing when no pixel is marked |
| BlobFinder.MarkedAgree | virtualreality/util/blobfinder.py:91-94 | both corrected scans find a mark or both find none, and the left edge is not after the right one |
| BlobFinder.LastMarkedAsWrittenMissesZero | virtualreality/util/blobfinder.py:92 | the right edge as written agrees with the corrected one, except when the only marked pixel is pixel 0; then it finds nothing |
| BlobFinder.BlobEdges | virtualreality/util/blobfinder.py:91-106 | the edges are found exactly when both mask rows have a marked pixel |
| BlobFinder.BlobEdgesAsWritten | virtualreality/util/blobfinder.py:91-106 | as written, any edges found are the corrected edges, but a right or bottom edge is never at pixel 0 |
| BlobFinder.BlobAtCropStartLost | virtualreality/util/blobfinder.py:91-106 | a blob one pixel wide at the start of the crop is found with the corrected scans, but reported as no blob with the scans as written |
| BlobFinder.BlobFinder.constructor | virtualreality/util/blobfinder.py:53-57 | no last position or radius, and the colour range and drawing flag as given |
| BlobFinder.BlobFinder.FindBlob | virtualreality/util/blobfinder.py:141-248 | with a last position, a successful cropped search is returned. Otherwise the last position is forgotten and the pyramid search decides. A find becomes the last position and radius, and no find clears both |
| Components.U32 | driver/src/ref/hobovr_components.h:130-138 | a uint32_t assignment: the value modulo 2^32, unchanged when it already fits |
| Components.CDiv | driver/src/ref/hobovr_components.h:131 | C++ int division, truncating toward zero |
| Components.EyeOutputViewport | driver/src/ref/hobovr_components.h:128-139 | each eye is half the window wide and the whole window high, at the top; the left eye starts at 0 and the right one at half the width plus the eye gap |
| Components.EyesSideBySide | driver/src/ref/hobovr_components.h:128-139 | for sizes that fit, the two eyes are equal, side by side, the right one starting exactly the gap after the left one ends, and together with the gap they span at most the window plus the gap |
| Components.Distance | driver/src/ref/hobovr_components.h:386-394 | the squared distance is never negative, and is zero for equal blocks |
| Components.Distances | driver/src/ref/hobovr_components.h:385-400 | the distance of each history frame's rotation from the submitted pose, one per frame |
| Components.ExactRotationSettles | driver/src/ref/hobovr_components.h:381-400 | when some history frame has exactly the submitted rotation, the search settles on a frame at distance zero |
| Components.DirectMode.constructor | driver/src/ref/hobovr_components.h:209-221 | no history, no layer submitted, and the last referenced frame and time 0 |
| Components.DirectMode.OnPoseUpdated | driver/src/ref/hobovr_components.h:223-256 | the frame joins the history when the history is empty or ends with another frame index, and beyond ten frames the oldest is dropped; the last frame then has the frame's index, and the frame becomes the last referenced one |
| Components.DirectMode.SubmitLayer | driver/src/ref/hobovr_components.h:358-437 | the first layer of a frame picks the history frame nearest the pose as the submitted frame, and the previous one moves to prev; with an empty history it is frame 0 and prev stays. A later layer leaves the submitted and prev frames, times and rotations as they were. A layer is kept while fewer than MAX_LAYERS are, and dropped otherwise. The history and the last referenced frame stay |
| Components.DirectMode.PickSubmittedFrame | driver/src/ref/hobovr_components.h:376-421 | the submitted frame is where the nearest-rotation search settles, or frame 0 at time 0 with a zero rotation for an empty history; with a history, the old submitted frame, time and rotation become prev; with none, prev stays as it was |
| Components.DirectMode.Nearest | driver/src/ref/hobovr_components.h:381-401 | nothing exactly for an empty history; otherwise the first of the smallest distances when one is below 100000, and the first frame when none is |
| Components.DirectMode.Present | driver/src/ref/hobovr_components.h:442-455 | the layers submitted are handed over, at most MAX_LAYERS of them, and counting starts afresh; the frame is discarded exactly when the submitted frame index has not moved on; the history, the submitted and prev frames, times and rotations and the last referenced frame stay |
| Components.DirectMode.GetNextSwapTextureSetIndex | driver/src/ref/hobovr_components.h:347-354 | each of the two indices steps on by one as a uint32_t, modulo 3 |
| Components.NextSwap | driver/src/ref/hobovr_components.h:350-353 | the next index is below 3 |
| Components.SwapCycles | driver/src/ref/hobovr_components.h:347-354 | from any of the three textures the index visits the other two and comes back after three steps |
| Components.NearestStep | driver/src/ref/hobovr_components.h:385-400 | one step of the search keeps its invariant: the index and best distance settle for one more frame |
| DeviceBase.SameNameIgnoresCase | driver/src/device/hobovr_device_base.h:180 | _stricmp matches a name with its lower-cased form |
| DeviceBase.HobovrDevice.constructor | driver/src/device/hobovr_device_base.h:30-65 | the model number is breed + serial, and there is no object id yet. The pose is running, valid and connected, at the origin with identity rotations and the configured time offset |
| DeviceBase.HobovrDevice.Activate | driver/src/device/hobovr_device_base.h:73-74 | the device takes the object id it is given, and nothing else changes |
| DeviceBase.HobovrDevice.PowerOff | driver/src/device/hobovr_device_base.h:137-146 | the pose becomes invalid and disconnected, the rest of it unchanged; an active device reports the new pose to the host once, and an inactive one reports nothing |
| DeviceBase.HobovrDevice.PowerOn | driver/src/device/hobovr_device_base.h:148-157 | the pose becomes valid and connected, the rest of it unchanged; an active device reports the new pose to the host once |
| DeviceBase.HobovrDevice.Deactivate | driver/src/device/hobovr_device_base.h:159-163 | the device powers off, reporting the pose if it was active, and gives up its object id |
| DeviceBase.HobovrDevice.GetComponent | driver/src/device/hobovr_device_base.h:177-201 | NULL exactly when no component's name matches ignoring case; otherwise the first component that matches |
| DeviceBase.FirstMatchUnique | driver/src/device/hobovr_device_base.h:179-197 | at most one component is the first match, so the answer is determined |

## Left out

- Sockets, serial ports, threads, `asyncio`, sleeps and the keyboard are not modelled. Their results are inputs: lists of `recv` outcomes, run-loop events, read data. Their writes are kept as logs.
- Concurrency is out: `stop()` called from another thread, the mutex of the Windows receiver, and the relay server's concurrent tasks. Each is modelled one step at a time.
- Floating point is out. Values are `real`, with no rounding and no NaN or infinity. The bit-level decoding of floats (`struct.unpack` of `f`, a float view of a byte buffer) is an input: packets are cut into words of the right sizes.
- Bytes that the Python side decodes as UTF-8 are modelled as characters (ASCII). Decode failures are out.
- HobovrDriver.ServerDriver.OnPacket: a layout with a negative size (a size word of 2^31 or more) takes no packet. In the source, the length test may still pass, and then the slicing is undefined behaviour.
- SockUtil.SplitPk: the sizes are natural numbers. The source's `std::vector<int>` admits negative sizes, which make its slicing undefined behaviour; that case is not modelled.
- Numbers: Python `float()` is modelled on plain decimal text, without underscores, `inf` or `nan`. `std::stod` is modelled on decimal text, without hex, `inf` or `nan`.
- The regex helpers of driver/src/ref/util.h (`first_rgx_match`, `get_rgx_vector`, `split_by_rgx`) and `buffer_to_string` are not part of this model.
- Receiver: the socket blocks when no data comes and spins when the buffer fills without a terminator. These are modelled as the outcomes `Starved` and `Stuck`. The copies of `remove_message_from_buffer` and `split_to_double` in driver/src/ref/receiver.h are the same as the ones in driver/src/ref/util.h and are modelled once.
- ComRecv: the Windows socket calls are out. Tokens of the `stringstream` are extracted word by word. An uninitialised temporary is taken as 0.0. A buffer with no NUL byte is taken whole as the C string.
- PoseUtil: the filter arithmetic of `LazyKalman` is out.
- SerialUtil: the `struct.unpack` float decoding is out. The packet is cut into its words.
- DummyDriver: the run loop reads a finite list of events. Running out of events ends the run where the source would block.
- RelayServer: the connections' asyncio tasks are modelled one at a time, with each peer's reads and the results of writes to it as inputs. The model keeps what virtualreality/server/server.py does: a connection is a poser only when its id is `holla`, a failed write ends that broadcast, and the peer's record is removed when `Serve` ends.
- UduTemplate: the definition of `settManager_Message_t` is not part of this model. The manager packet is modelled as 130 words (type, count and 128 payload words). The packet terminator is a parameter.
- UduTemplate.UduPacket: with more than 64 devices the padding length is negative, and `np.zeros` raises `ValueError` before the packet is packed. This is modelled as `None`, not as that exception.
- HobovrDriver: the `DriverReceiver` comes from a header that is not part of this model, so its settings (packet size, device list) are parameters of `Init`. The devices' own `ProcessEvent` and the pose arithmetic of `RunFrame` are out.
- Templates and TemplateBase: the send and receive loops accumulate into local values. Sleeps and `asyncio` tasks are out, and so is `close`'s command-line loop: it reads lines with `ainput`, parses them with docopt and hands each pair to the `_cli_arg_map` hook.
- DeviceBase: OpenVR property calls, haptics, battery and update checks are out. The device's components are a constructor parameter, and pose updates to the host are a log.
- Components: Direct3D, the video encoder, the keyed mutex and the driver's test-mode flag are out. Members the source leaves uninitialised start at 0. The recentred head rotation is an input. The texture copy in `Present` is out.
- Components.Distance: states that the distance is never negative and is zero for equal blocks, but not the converse (zero only for equal blocks). The nonlinear square reasoning that needs is left out.
- BlobFinder: OpenCV (masking, blurring, contours, the image pyramid) is out. The finds of the tracked and the full-image search are inputs.
- ColorCalibration: the `auto_exposure` setting is not stored, and `cv2.inRange` is out.

## Findings

| source | as written | input that shows it | evidently intended | confidence | as-written member | corrected member |
|---|---|---|---|---|---|---|
| bindings/python/virtualreality/templates/poses.py:167-174 | `__setitem__` checks the value with `numbers.Number`, but the file never imports `numbers`, so every assignment raises `NameError` | `pose["x"] = 1.0` on any pose record | a number stored in a listed slot, a failed assertion for other values and a `KeyError` for other keys | high, not executed | Poses.SetItemAsWritten (Poses.SetItemAlwaysFails) | Poses.SetItem (Poses.SetThenGet) |
| driver/src/driver_hobovr.cpp:766-784 | the udu decode reads as many (type, size) slots as the request's count word says, with no bound | a 130-word udu request whose count word is 65: the loop reads two words past the end | the count bounded by the 64 slots the request holds | medium, not executed | HobovrDriver.UduPairsAsWritten (HobovrDriver.UduOverread) | HobovrDriver.UduPairs (HobovrDriver.UduPairsAgree, HobovrDriver.UduRoundTrip) |
| virtualreality/util/blobfinder.py:11-13 | `reversed_enumerate` uses `range(len(l) - 1, 0, -1)`, which stops before index 0, so the right-edge scan never sees pixel 0 | a crop whose mask rows are `[1, 0]`: no right edge is found and the blob is lost | every index, last first (`range(len(l) - 1, -1, -1)`) | high, not executed | BlobFinder.ReversedEnumerate, BlobFinder.LastMarkedAsWritten (BlobFinder.LastMarkedAsWrittenMissesZero, BlobFinder.BlobAtCropStartLost) | BlobFinder.ReversedEnumerateAll, BlobFinder.LastMarked (BlobFinder.LastMarkedIsLast) |
