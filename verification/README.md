# A verified model of RDPMux

RDPMux serves the displays of virtual machines over RDP. A library inside the hypervisor
copies the guest's framebuffer into shared memory and announces changes over a ZeroMQ socket as
MessagePack arrays; a broker process routes these messages to one RDP listener per guest and
routes mouse and keyboard events back. This project models that path in Dafny and proves what
holds over every run, every message and every buffer.

The modules follow the program:

- `Boxes`, `PixelCopy`, `DisplayCore`, `MuxDisplay`: the framebuffer library
  (`lib/src/rdpmux.c`). `MuxDisplay.Display` is the global structure with its entry points,
  updated in place; `DisplayCore` holds the same transitions as functions on values.
- `Protocol`, `ProtocolTheorems`, `History`, `Deferral`: the guest, the display thread and the I/O thread as
  a step system over `DisplayCore`, with `pthread_mutex_trylock` failing at will. The display
  thread can be interrupted between the copy and the critical section of a switch, the I/O
  thread between emptying the slot and sending.
- `Bytes`, `BigEndian`, `Msgpack`, `MsgpackIntegers`, `MsgpackTree`, `Cmp`, `NnStr`: the
  MessagePack codec (`lib/src/lib/c-msgpack.c`) and its growing buffer (`lib/src/msgpack.c`).
  `Cmp.Context` is the codec's stream with its error field, proved to write and read what the
  functions in `Msgpack` say; these in turn are proved to follow the byte layout of the
  MessagePack specification.
- `Messages`, `ServerView`: what a message means at the other end.
- `Multipart`, `Ports`, `Broker`: framing, port allocation and routing in the broker.
- `Wildcard`, `HitCounter`: two algorithms of the bundled logging header.

## Hypotheses

The framebuffer theorems are about runs in which coordinates are non-negative and do not
overflow, pixels have 32 bits and rows no padding, surfaces are at most 4096x2048, the shared
memory could be set up, and the aligned top edge of a reported rectangle is not below the
surface. A switch keeps the aligned top edge of a pending box on the new surface: the source does
not clear the box on a switch, so this is an assumption about its callers. It cannot be dropped,
because it is exactly what makes the next refresh copy rows that exist
(`DisplayCore.RefreshInBoundsIff`, with the failing switch in `DisplayCore.SwitchCanStrandBox`).
Nothing is assumed about the right edge, where the source goes on with a defined but useless box;
see the list below. A guest's writes, a copy under the lock and a critical section are single
steps.

The port theorem is about runs with fresh identifiers and explicit ports that are not held. The
socket is lossless and ordered. The server's packing and unpacking is done by a foreign library
and is modelled by the MessagePack specification, that is, by `MsgpackTree.Encode` and
`MsgpackTree.Decode`.

## Where the code falls short of the obvious property

Each of these is stated with its exact condition.

- A switch leaves the dirty box alone. The next refresh copies existing rows if and only if the
  aligned top of the box is not below the new surface (`RefreshInBoundsIff`); a switch from 600
  to 300 rows with row 400 dirty breaks it (`SwitchCanStrandBox`).
- In the other direction a stranded box is published with a negative width: a switch from 800 to
  400 columns with column 600 dirty gives the box (592, 0)-(400, 16)
  (`DisplayCore.NarrowSwitchInvertsBox`), whose message the server cannot convert and drops
  (`Messages.NarrowSwitchUpdateIsDropped`). A published box is the right way round, and arrives,
  if and only if the aligned pending box is the right way round and its aligned corner is not past
  the edge of the surface; for a pending box that is the right way round only the second part is
  left (`Boxes.PublishedProperIff`, `ProtocolTheorems.SwitchKeepsBoxProperIff`,
  `Messages.RefreshedBoxArrivesIff`). Such a box covers no pixel, so no damage is lost with it
  (`Messages.WireMessagesArrive`, `ServerView.DamageReachesServer`), and callers that keep corners
  on the surface never cause one (`ProtocolTheorems.AnchoredRunsSendProperBoxes`).
- The buffer doubles only once per overflowing write, so writes of up to m bytes are safe if and
  only if the first allocation has at least m usable bytes (`NnStr.SafeIff`).
- `cmp_write_object` truncates oversized members silently: an object comes back if and only if it
  is well-formed (`Msgpack.RoundTripIff`, `Msgpack.TruncatedWrites`).
- The server narrows rectangles to 16 bits: the box survives if and only if its far corner is
  below 65536 (`Messages.RectSurvivesIff`).
- An empty multipart message leaves no trace on the wire: a list of messages is rebuilt if and
  only if none is empty (`Multipart.FramingIff`).
- The every-N counter folds at 100000 and is right if and only if n is at most 100000
  (`HitCounter.EveryNIff`).
- A port stays held for good when its listener cannot be constructed: the held ports are those of
  the live listeners if and only if no registration got a port and then failed
  (`Ports.PortsLeakIff`).
- A failed set-up of the shared memory leaves the new surface installed; the next switch tries
  again, except after a failed mmap (`MuxDisplay.Display.Switch`).
- An update message throws if and only if it has fewer than five fields, and then has already
  changed the leading ones (`Messages.Listener.ProcessUpdate`).

The comments at lines 114 and 140 of `lib/src/msgpack.c` describe keyboard and mouse messages as
arrays of two and three items; the code reads and writes a leading type as well, and the model
follows the code.

## Model

| member | source | states |
|---|---|---|
| `Boxes.CloseKeepsPixels` | lib/src/rdpmux.c:235-258 | Aligning to 16 and clamping loses no on-surface pixel of the dirty box. |
| `Boxes.CloseByGrid` | lib/src/rdpmux.c:235-258 | The four corners after aligning and clamping, as whole multiples of 16 cut off at the surface. |
| `Boxes.CloseIsLeastGridBox` | lib/src/rdpmux.c:235-258 | Aligning and clamping gives the least box on the 16-pixel grid (or surface edge) that contains the on-surface part. |
| `Boxes.CloseIdempotent` | lib/src/rdpmux.c:235-258 | Aligning an aligned box again changes nothing, so deferred refreshes do not grow it. |
| `Boxes.CloseAbsorbsJoin` | lib/src/rdpmux.c:235-273 | Aligning early and then adding a rectangle gives the same final box as aligning once at the end. |
| `Boxes.SelfExpandIsNoOp` | lib/src/rdpmux.c:273 | Expanding the box by itself, as refresh does, has no effect. |
| `Boxes.JoinAnchored` | lib/src/rdpmux.c:27-43 | Expanding keeps the aligned corner on the surface. |
| `Boxes.JoinLanded` | lib/src/rdpmux.c:27-43 | Expanding keeps the aligned top edge on the surface. |
| `Boxes.CloseLanded` | lib/src/rdpmux.c:235-258 | Aligning and clamping keeps the top edge on the surface and puts the far corner on it. |
| `Boxes.PublishedProperIff` | lib/src/rdpmux.c:235-258 | The aligned, clamped box is the right way round if and only if the aligned box was and its aligned corner is not past the surface edge. |
| `Boxes.JoinAllIsLeastBound` | lib/src/rdpmux.c:27-43 | Repeated expansion yields the least upper bound of all reported rectangles. |
| `Boxes.JoinAllOrderFree` | lib/src/rdpmux.c:27-43 | The bounding box does not depend on order or repetition of the reports. |
| `PixelCopy.CopyPixels` | lib/src/rdpmux.c:62-92 | Both the single memcpy and the row loop write exactly the byte rectangle and leave every other byte alone. |
| `PixelCopy.RowLoop` | lib/src/rdpmux.c:84-90 | The pointer-advancing loop terminates and copies exactly the rows of the rectangle. |
| `PixelCopy.AddRow` | lib/src/rdpmux.c:86-90 | One more row extends an exact rectangle copy; rows do not overlap when no longer than the step. |
| `PixelCopy.StripIsRect` | lib/src/rdpmux.c:81-82 | A contiguous copy of full-width rows is the same rectangle copy. |
| `DisplayCore.RefreshInBoundsIff` | lib/src/rdpmux.c:235-261 | The height a refresh copies is meaningful if and only if the aligned top edge is not below the surface. |
| `DisplayCore.SwitchCanStrandBox` | lib/src/rdpmux.c:139-212 | A concrete switch to a shorter surface after which the pending box no longer lies on it. |
| `DisplayCore.NarrowSwitchInvertsBox` | lib/src/rdpmux.c:139-301 | A concrete switch to a narrower surface after which a refresh publishes a box of width -192. |
| `DisplayCore.CopyRowsPixel` | lib/src/rdpmux.c:260-281 | After the strip copy a pixel equals the surface's if its row is in the strip, and its old value otherwise. |
| `DisplayCore.RefreshWrites` | lib/src/rdpmux.c:220-301 | What a refresh writes, byte by byte: nothing but the box without the lock; with it exactly the rows of the aligned box; and when the slot takes the box. |
| `DisplayCore.SwitchWrites` | lib/src/rdpmux.c:139-212 | What a switch writes, byte by byte: the surface at the front, old bytes or zeros behind it; the dirty box stays. |
| `DisplayCore.SurfaceFitsShm` | lib/src/rdpmux.c:155 | A legal surface fits the 4096x2048x4 bytes of shared memory. |
| `MuxDisplay.Display.constructor` | lib/src/rdpmux.c:432-436 | A new structure has no surface, no shared memory and nothing pending. |
| `MuxDisplay.Display.Update` | lib/src/rdpmux.c:106-126 | A report starts the dirty box as the rectangle or joins it with the rectangle, and touches nothing else. |
| `MuxDisplay.Display.ExpandRect` | lib/src/rdpmux.c:27-43 | The box becomes its join with the rectangle; other update types are left alone. |
| `MuxDisplay.Display.Switch` | lib/src/rdpmux.c:139-212 | On success, also when earlier set-ups failed, every byte of shared memory, the slot and the kept dirty box; on each failure, what is left behind and whether a retry is possible. |
| `MuxDisplay.Display.RefreshDisplay` | lib/src/rdpmux.c:220-301 | The in-place refresh performs the refresh transition and returns 30; without the lock no byte of shared memory and not the slot changes, with it exactly the rows of the aligned box. |
| `MuxDisplay.Display.SyncDirty` | lib/src/rdpmux.c:222-295 | With a pending box: the refresh transition, and no byte or slot changed without the lock. |
| `MuxDisplay.Display.AlignDirty` | lib/src/rdpmux.c:235-258 | The six in-place adjustments compute the closed box. |
| `MuxDisplay.Display.CopyStrip` | lib/src/rdpmux.c:260-281 | The call with full-width rows replaces exactly those rows of the shared memory. |
| `MuxDisplay.Display.TakeOutgoing` | lib/src/rdpmux.c:362-380 | The I/O thread gets the slot's content if it was ready, and the slot is then empty. |
| `MuxDisplay.InitDisplay` | lib/src/rdpmux.c:430-456 | Fails exactly for an identifier that is not 36 characters long or cannot be copied; otherwise the initial structure. |
| `MuxDisplay.RectIsRows` | lib/src/rdpmux.c:265-281 | A rectangle that spans full scanlines is a contiguous block of rows. |
| `Protocol.TidyStep` | lib/src/rdpmux.c:106-301 | Every step keeps buffer sizes and the top edge of the dirty box; the dirty type is never a switch. |
| `Protocol.MirrorStep` | lib/src/rdpmux.c:106-301 | Every step keeps stale pixels inside the dirty box or unreported. |
| `Protocol.SwitchSyncs` | lib/src/rdpmux.c:188 | The memcpy of a switch makes every pixel agree with the new surface. |
| `Protocol.RefreshSyncs` | lib/src/rdpmux.c:260-281 | A locked refresh brings every pixel of the dirty box up to date and spoils no other. |
| `Protocol.RefreshMirror` | lib/src/rdpmux.c:220-301 | A refresh keeps the mirror invariant, and with the lock leaves every reported pixel in agreement. |
| `Protocol.MailboxStep` | lib/src/rdpmux.c:192-209 | Every step keeps the one-slot protocol: ready iff not invalid, sent in order, lost only to a switch. |
| `Protocol.PublishMailbox` | lib/src/rdpmux.c:283-288 | Putting a message into the slot keeps the protocol if the slot was free or the message is a switch. |
| `Protocol.TakeMailbox` | lib/src/rdpmux.c:368-374 | Emptying the slot keeps the protocol: the message moves to the I/O thread. |
| `Protocol.SendMailbox` | lib/src/rdpmux.c:382-391 | Sending keeps the protocol: the message moves to the wire, behind all earlier ones. |
| `Protocol.PublishableStep` | lib/src/rdpmux.c:283-288 | Only switches to legal surfaces and boxes whose far corner is within 4096x2048 and whose rows are in order ever enter the slot. |
| `Protocol.AccountedStep` | lib/src/rdpmux.c:106-301 | Every step keeps every reported pixel accounted for. |
| `Protocol.AnnouncedStep` | lib/src/rdpmux.c:192-288 | Every step keeps updates on the grid of the surface announced before them. |
| `Protocol.InvStep` | lib/src/rdpmux.c:106-391 | Every step of any thread keeps all invariants together. |
| `Protocol.InvRun` | lib/src/rdpmux.c:106-391 | Every reachable state satisfies all invariants. |
| `ProtocolTheorems.MirrorTheorem` | lib/src/rdpmux.c:106-301 | In every reachable state a pixel that differs from the surface is in the dirty box or not yet reported. |
| `ProtocolTheorems.RefreshMakesExactCopy` | lib/src/rdpmux.c:220-301 | After a locked refresh with every change reported, shared memory equals the surface byte for byte. |
| `ProtocolTheorems.SentInOrder` | lib/src/rdpmux.c:192-391 | The sent messages are the published ones in order, without repetition, missing only those overwritten by a switch that came next. |
| `ProtocolTheorems.LiveSwitch` | lib/src/rdpmux.c:192-209 | From any switch on, some switch is still in the slot, held or sent. |
| `ProtocolTheorems.NoLostDamage` | lib/src/rdpmux.c:106-407 | In every interleaving, a reported pixel is in the dirty box, in a later update on its way or sent, or followed by a switch under way or sent. |
| `ProtocolTheorems.QuiescentMeansSent` | lib/src/rdpmux.c:106-407 | Once nothing is pending, every reported pixel was followed on the wire by an update that covers it or by a switch. |
| `ProtocolTheorems.SentBefore` | lib/src/rdpmux.c:362-391 | A message that no switch overtakes is sent before any later one. |
| `ProtocolTheorems.WireUpdatesFollowTheirSwitch` | lib/src/rdpmux.c:192-391 | On the wire, the last switch before an update announces the surface that the update is about. |
| `ProtocolTheorems.QuiescentAnnouncesSurface` | lib/src/rdpmux.c:192-391 | Once nothing is pending, the last switch on the wire describes the current surface. |
| `ProtocolTheorems.SettleFrom` | lib/src/rdpmux.c:220-391 | From any state within the invariants, at most six steps empty everything. |
| `ProtocolTheorems.SettleDelivers` | lib/src/rdpmux.c:220-391 | From every reachable idle state at most six more steps leave nothing pending and every reported pixel synchronised. |
| `ProtocolTheorems.UprightStep` | lib/src/rdpmux.c:106-301 | Steps that keep corners on the surface keep pending and published boxes the right way round. |
| `ProtocolTheorems.AnchoredRunsSendProperBoxes` | lib/src/rdpmux.c:106-391 | Over every run whose callers keep corners on the surface, every update sent is the right way round. |
| `ProtocolTheorems.SwitchKeepsBoxProperIff` | lib/src/rdpmux.c:139-301 | After a switch with a pending box, the box next published is the right way round if and only if the aligned one was and its left edge is not to the right of the new surface. |
| `History.GuestWritesSurface` | lib/src/rdpmux.c:143-147 | A guest write changes the surface's pixels, which the library only points to, and nothing that the library keeps. |
| `History.UnreportedIff` | lib/src/rdpmux.c:106-126 | The unreported pixels are those written since they were last reported or copied by a switch. |
| `History.StalePixels` | lib/src/rdpmux.c:106-301 | The mirror told by the run alone: a stale pixel is in the dirty box or was written since it was last reported or copied. |
| `History.ReportIsRecorded` | lib/src/rdpmux.c:106-126 | Each report of a run is recorded with its rectangle, surface size and place among the messages. |
| `History.ReportedPixelIsNotLost` | lib/src/rdpmux.c:106-407 | No lost damage told by the run alone, for any report in any run. |
| `Deferral.DeferTracks` | lib/src/rdpmux.c:106-287 | Through any stretch of a run without a switch or a publication, guest writes and I/O steps included, the dirty box closes to the closed bounding box of all reports. |
| `Deferral.PublishedBox` | lib/src/rdpmux.c:235-287 | What is published after such a stretch is the aligned, clamped least bounding box of the rectangles reported in it. |
| `Deferral.DeferralIndependence` | lib/src/rdpmux.c:106-287 | Two such stretches that report the same rectangles publish the same box, whatever the order, the deferred refreshes and the guest writes. |
| `BigEndian.ToBigEndian` | lib/src/lib/c-msgpack.c:120-176 | The pairwise swaps reverse the bytes on a little-endian host and change nothing on a big-endian one. |
| `BigEndian.SwapGivesWireOrder` | lib/src/lib/c-msgpack.c:120-176 | A number of 2, 4 or 8 bytes in the memory of either kind of host is, after the swap, most significant byte first. |
| `BigEndian.Read64` | lib/src/lib/c-msgpack.c:152-176 | An 8-byte field read from the front of any stream is the number written. |
| `BigEndian.Write64` | lib/src/lib/c-msgpack.c:152-176 | Rewriting an 8-byte field that was read gives its bytes. |
| `Msgpack.WriteThenRead` | lib/src/lib/c-msgpack.c:1013-1091 | Every well-formed object is read back, consuming exactly the written bytes, whatever follows. |
| `Msgpack.RoundTripIff` | lib/src/lib/c-msgpack.c:1013-1091 | The round trip succeeds if and only if the object is well-formed. |
| `Msgpack.TruncatedWrites` | lib/src/lib/c-msgpack.c:1013-1091 | An ill-formed object that is written gives the bytes of a different, well-formed one. |
| `Msgpack.ReadThenWrite` | lib/src/lib/c-msgpack.c:2031-2321 | Rewriting any object that was read reproduces exactly the consumed bytes. |
| `Msgpack.ReadIsLocal` | lib/src/lib/c-msgpack.c:2031-2321 | A successful read depends only on the bytes it consumed. |
| `Msgpack.HeadersArePrefixFree` | lib/src/lib/c-msgpack.c:1013-1091 | No header is a proper prefix of another. |
| `Msgpack.ReaderFollowsTable` | lib/src/lib/c-msgpack.c:2031-2321 | The reader agrees with the specification's format table: which first bytes succeed, header sizes, formats. |
| `Msgpack.WriterFollowsTable` | lib/src/lib/c-msgpack.c:1013-1091 | For all 35 formats the bytes are the assigned first byte, the field most significant byte first in two's complement, then the ext type; refused exactly when a small format overflows. |
| `Msgpack.ReaderReadsTable` | lib/src/lib/c-msgpack.c:2031-2321 | The reader reads exactly the bytes that the specification prescribes for an object. |
| `Msgpack.ErrorsFollowTable` | lib/src/lib/c-msgpack.c:2031-2321 | Which error a failed read reports for which input, and what it has consumed. |
| `MsgpackIntegers.AcceptsIff` | lib/src/lib/c-msgpack.c:2513-2681 | A typed conversion accepts exactly when value, width and signedness fit, and yields the value. |
| `MsgpackIntegers.IntegerExactness` | lib/src/lib/c-msgpack.c:336-400 | On written integers each of the eight readers succeeds exactly when the value fits its type, and returns it. |
| `MsgpackIntegers.ChosenIsShortest` | lib/src/lib/c-msgpack.c:336-400 | No integer encoding of the same value is shorter than the one chosen. |
| `MsgpackIntegers.IntOnWire` | lib/src/lib/c-msgpack.c:336-400 | The bytes of every integer, as the specification lays out its shortest form. |
| `MsgpackTree.HeaderContent` | lib/src/lib/c-msgpack.c:577-1011 | The header selected by size announces exactly what the value holds. |
| `MsgpackTree.TreeRoundTrip` | lib/src/lib/c-msgpack.c:1685-2029 | Any nested value is read back identically from a buffer that starts with its bytes. |
| `MsgpackTree.ListRoundTrip` | lib/src/lib/c-msgpack.c:1746-1780 | The items of an array or map are read back in order, and nothing of what follows. |
| `MsgpackTree.HeaderIsShortest` | lib/src/lib/c-msgpack.c:577-1011 | No header that announces the same content is shorter. |
| `MsgpackTree.TreeIsShortest` | lib/src/lib/c-msgpack.c:577-1011 | No byte string that decodes to a value is shorter than the writers' encoding of it. |
| `MsgpackTree.HeaderOnWire` | lib/src/lib/c-msgpack.c:577-1011 | The selected header is the byte string that the specification prescribes for the kind and the size. |
| `MsgpackTree.ItemsInOrder` | lib/src/lib/c-msgpack.c:728-778 | Items stand one after the other in their order. |
| `MsgpackTree.EncodeFollowsSpec` | lib/src/lib/c-msgpack.c:577-1011 | The encoding is the prescribed header followed by the raw bytes or the items. |
| `NnStr.RoomyRunIsSafe` | lib/src/msgpack.c:38-78 | With capacity for the largest write, one doubling per overflow keeps every run in bounds. |
| `NnStr.SafeIff` | lib/src/msgpack.c:38-78 | All runs of writes of at most m bytes stay in bounds if and only if the first allocation holds m bytes. |
| `NnStr.Buffer.ForReading` | lib/src/msgpack.c:17-23 | A buffer around received bytes has all of them left to read. |
| `NnStr.Buffer.Write` | lib/src/msgpack.c:38-78 | A write that one doubling can hold appends its bytes and keeps all earlier ones. |
| `NnStr.Buffer.Read` | lib/src/msgpack.c:93-109 | A read yields the next bytes if there are enough, and otherwise changes nothing. |
| `NnStr.WriteAll` | lib/src/msgpack.c:38-78 | Any sequence of writes of up to 8 bytes stays in bounds and leaves their concatenation. |
| `Cmp.Context.WriteUinteger` | lib/src/lib/c-msgpack.c:389-400 | Appends the shortest encoding of the number. |
| `Cmp.Context.WriteInteger` | lib/src/lib/c-msgpack.c:336-353 | Appends the shortest encoding of the signed number. |
| `Cmp.Context.WriteArray` | lib/src/lib/c-msgpack.c:728-735 | Appends the array header that fits the count. |
| `Cmp.Context.WriteHeader` | lib/src/lib/c-msgpack.c:1013-1091 | Appends the object's header, or appends nothing and sets the error, for all 35 types. |
| `Cmp.Context.ReadHeader` | lib/src/lib/c-msgpack.c:2031-2321 | Reads any header from the stream; on failure the error and what was consumed. |
| `Cmp.Context.ReadTyped` | lib/src/lib/c-msgpack.c:1278-1558 | The eight typed readers agree with reading an object and converting it, errors included. |
| `Cmp.Context.SignedCases` | lib/src/lib/c-msgpack.c:1278-1404 | The signed readers' case lists agree with `cmp_object_as_*`. |
| `Cmp.Context.UnsignedCases` | lib/src/lib/c-msgpack.c:1474-1558 | The unsigned readers' case lists agree with `cmp_object_as_*`. |
| `Cmp.Context.ReadArray` | lib/src/lib/c-msgpack.c:1746-1762 | Yields the count of an array header and rejects every other type. |
| `Messages.WriteUpdateMsg` | lib/src/msgpack.c:246-267 | The stream holds byte 95 and the numbers 1, x, y, w, h. |
| `Messages.WriteSwitchMsg` | lib/src/msgpack.c:275-293 | The stream holds byte 94 and the numbers 2, format, w, h. |
| `Messages.WriteShutdownMsg` | lib/src/msgpack.c:295-302 | The stream holds the bytes 91 06. |
| `Messages.WriteOutgoing` | lib/src/msgpack.c:312-336 | The returned buffer, at its full capacity, starts with the message. |
| `Messages.FieldsArrive` | src/RDPServerWorker.cpp:205-217 | Fields of 32 bits are unpacked in order, whatever padding follows the message. |
| `Messages.MessageOnWire` | lib/src/msgpack.c:246-302 | A message of up to 15 fields, byte for byte. |
| `Messages.ShutdownArrives` | lib/src/msgpack.c:295-302 | The shutdown message is unpacked as the single number 6, whatever padding follows. |
| `Messages.HandleFrame` | src/RDPServerWorker.cpp:205-224 | A frame that cannot be converted changes nothing; others are processed; a shutdown message stops the listener and keeps rectangle and surface. |
| `Messages.RectSurvivesIff` | src/rdp/subsystem.cpp:86-95 | The server's 16-bit rectangle equals the published box if and only if the box fits 16 bits. |
| `Messages.Listener.Process` | src/rdp/RDPListener.cpp:164-182 | Which fields each message type changes, when it throws, and that shutdown stops the listener. |
| `Messages.Listener.ProcessUpdate` | src/rdp/RDPListener.cpp:190-202 | The rectangle is assigned field by field; a short message throws after the leading ones. |
| `Messages.Listener.ProcessSwitch` | src/rdp/RDPListener.cpp:227-264 | Format, width and height are replaced together, unless the message is short or mapping fails. |
| `Messages.Listener.DirtyRect` | src/rdp/subsystem.cpp:86-95 | If the fields are those of a box, the rectangle is that box if and only if it fits 16 bits; in any case its corners are right modulo 65536. |
| `Messages.WideFieldStopsMessage` | src/RDPServerWorker.cpp:205-224 | A message with a negative or wider than 32-bit field is not converted. |
| `Messages.UpdateArrivesIff` | lib/src/msgpack.c:246-336 | A published update or switch is rebuilt from its message with any padding if and only if it is not a box the wrong way round; such a one is dropped. |
| `Messages.RefreshedBoxArrivesIff` | lib/src/msgpack.c:246-267 | Which pending boxes a refresh turns into a message that arrives, and which into one that is dropped. |
| `Messages.NarrowSwitchUpdateIsDropped` | lib/src/msgpack.c:246-267 | The concrete box of width -192 is dropped. |
| `Messages.WireMessagesArrive` | lib/src/msgpack.c:246-336 | Over every run, each message sent is rebuilt by the server as the same box or the same format, width and height if and only if it is the right way round, as every update that covers a pixel is. |
| `Messages.AnchoredRunsArrive` | lib/src/msgpack.c:246-336 | Over every run whose callers keep corners on the surface, every message is rebuilt. |
| `Messages.TakeEncoded` | lib/src/msgpack.c:120-166 | Consecutive `cmp_read_uint` calls take the encoded fields in order. |
| `Messages.EventArrives` | src/rdp/subsystem.cpp:29-48 | Every mouse or keyboard event fires exactly one callback of its kind with its values in place. |
| `Messages.MouseVector` | src/rdp/subsystem.cpp:39-48 | The queued vector is 3, x, y, flags. |
| `Messages.KeyVector` | src/rdp/subsystem.cpp:29-37 | The queued vector is 4, code, flags. |
| `Messages.DispatchTable` | lib/src/msgpack.c:197-238 | Type 3 fires the mouse callback with the next three numbers, type 4 the keyboard callback with the next two, any other type nothing. |
| `Messages.DispatchRejects` | lib/src/msgpack.c:212-218 | A frame that is not an array or does not start with a 32-bit number fires nothing. |
| `Messages.ProcessIncoming` | lib/src/msgpack.c:197-238 | The dispatcher and its handlers fire exactly the callbacks that the frame calls for, for every frame. |
| `ServerView.ViewSnoc` | src/rdp/RDPListener.cpp:164-202 | Processing one more message replaces the rectangle or the surface and keeps the other; a dropped one changes nothing. |
| `ServerView.ViewOfSwitch` | src/rdp/RDPListener.cpp:227-264 | After any messages the listener holds the last announced surface. |
| `ServerView.RepaintsOnKnownSurface` | src/rdp/subsystem.cpp:86-95 | Over every run, after each update received the server's rectangle is the published box and lies on the surface the server knows; a dropped one changes nothing. |
| `ServerView.ServerKnowsSurface` | src/rdp/RDPListener.cpp:227-264 | Once nothing is pending, the server holds format and size of the guest's current surface. |
| `ServerView.DamageReachesServer` | lib/src/rdpmux.c:106-407 | Once nothing is pending, every reported pixel was followed by a message that the server rebuilds as a box covering it or as a switch. |
| `Multipart.Message.Pop` | include/util/zmq_addon.hpp:204-211 | Removes and yields the first frame; an empty frame if there is none. |
| `Multipart.Message.Remove` | include/util/zmq_addon.hpp:213-220 | Removes and yields the last frame; an empty frame if there is none. |
| `Multipart.Message.Send` | include/util/zmq_addon.hpp:117-129 | All frames go out in order, every one but the last flagged, and the message is empty; if the socket refuses a frame, what went out and what is left. |
| `Multipart.Message.Recv` | include/util/zmq_addon.hpp:102-115 | Takes exactly the frames of the first complete message; if receiving fails, the frames before that. |
| `Multipart.Message.Prepend` | include/util/zmq_addon.hpp:131-135 | Concatenation in front, in order; the argument is emptied. |
| `Multipart.Message.Append` | include/util/zmq_addon.hpp:137-141 | Concatenation behind, in order; the argument is emptied. |
| `Multipart.FirstOfWire` | include/util/zmq_addon.hpp:102-129 | What is received first is what was sent first, and nothing of the next message. |
| `Multipart.ReceivedIsSent` | include/util/zmq_addon.hpp:102-129 | Repeated receiving rebuilds all sent messages except empty ones. |
| `Multipart.FramingIff` | include/util/zmq_addon.hpp:102-129 | A list of messages is rebuilt exactly if and only if none is empty. |
| `Ports.FirstFreeIsLeast` | src/RDPServerWorker.cpp:62-90 | The search yields the least port in [3901, 65535) neither held nor refused, and none iff there is none. |
| `Ports.Registry.Register` | src/RDPServerWorker.cpp:56-114 | The port loop computes that search; success, held ports and the listener map in every case. |
| `Ports.Registry.Unregister` | src/RDPServerWorker.cpp:116-121 | Port and listener are released, no others. |
| `Ports.InvStep` | src/RDPServerWorker.cpp:56-121 | Registering, inserting and exiting keep ports distinct and the map equal to the live listeners. |
| `Ports.LiveListenersHaveOwnPorts` | src/RDPServerWorker.cpp:56-121 | Over every run live listeners have pairwise distinct held ports, and with the lock free the map lists exactly them. |
| `Ports.RegistrationIsRegister` | src/RDPServerWorker.cpp:56-114 | The steps of a registration together have the effect that the method is proved to have. |
| `Ports.ExitIsUnregister` | src/RDPServerWorker.cpp:116-121 | The exit of a listener releases its port and its entry, keeps all others, and is what the method is proved to do. |
| `Ports.PortIsGivenBack` | src/RDPServerWorker.cpp:56-121 | After a guest has registered and left, the next one gets the same port. |
| `Ports.PortsLeakIff` | src/RDPServerWorker.cpp:100-106 | Over every run the held ports are the live listeners' and the leaked ones, and only the former if and only if no listener failed to start. |
| `Ports.UnlockedExitLeavesDeadEntry` | src/rdp/RDPListener.cpp:152-155 | Without the shared lock, an exit before the insertion would leave a dead entry. |
| `Broker.MessageQueue.Enqueue` | src/util/MessageQueue.cpp:19-25 | Appends the item. |
| `Broker.MessageQueue.Dequeue` | src/util/MessageQueue.cpp:29-40 | Takes the oldest item; on an empty queue nothing is taken and the caller waits. |
| `Broker.MessageQueue.IsEmpty` | include/util/MessageQueue.h:42-44 | True exactly for an empty queue. |
| `Broker.Worker.SendMessage` | src/RDPServerWorker.cpp:123-144 | For a known connection and a socket that takes it, exactly the three frames are sent; otherwise nothing is. |
| `Broker.Worker.Receive` | src/RDPServerWorker.cpp:194-213 | Only three frames from a registered guest teach a connection. |
| `Broker.Worker.DrainQueue` | src/RDPServerWorker.cpp:171-180 | Items leave in order, each with its outcome; the wire gains exactly the sent ones; an exception ends the round after its item. |
| `Broker.InvStep` | src/RDPServerWorker.cpp:123-218 | Every step of producers, registrations and the loop keeps conservation and routing. |
| `Broker.OutgoingConservation` | src/RDPServerWorker.cpp:123-218 | Over every run the queued items are those dequeued followed by those waiting; each sent one went to its guest's latest connection. |
| `Broker.DequeueNeverBlocks` | src/RDPServerWorker.cpp:171-172 | After the emptiness check the only consumer's dequeue never waits. |
| `Broker.StepEffects` | src/RDPServerWorker.cpp:146-172 | What queueing, registration and the emptiness check change, and nothing else. |
| `Broker.PollIsReceive` | src/RDPServerWorker.cpp:189-213 | A received message has in a run the effect that the method is proved to have. |
| `Broker.SendDelivers` | src/RDPServerWorker.cpp:123-180 | Sending the oldest item adds exactly its three frames to what is received if the guest has a connection and the socket takes them, and nothing otherwise. |
| `Broker.DrainDelivers` | src/RDPServerWorker.cpp:171-180 | As long as the socket takes messages the loop empties the queue, and every item whose guest has a connection goes out in order. |
| `Broker.HeardGuestIsAnswered` | src/RDPServerWorker.cpp:123-218 | Over every run, once a registered guest has been heard from, an item queued for it goes out to the connection it was heard on. |
| `Broker.WireHoldsSentMessages` | src/RDPServerWorker.cpp:123-180 | Over every run, what the socket was given is taken apart into exactly the sent messages, in order. |
| `Broker.SentEventReachesGuest` | src/RDPServerWorker.cpp:123-144 | On the wire of any run, a sent input event is received behind the messages sent before it, with its guest's latest connection, and fires exactly its callback. |
| `Wildcard.MatchesOne` | include/util/logging.h:1233-1238 | A literal or question mark matches exactly one character. |
| `Wildcard.MatchesStar` | include/util/logging.h:1239-1244 | A star matches nothing, or one character and goes on. |
| `Wildcard.WildCardMatch` | include/util/logging.h:1230-1253 | Terminates, and is true iff the string splits into pieces that match the pattern's characters. |
| `HitCounter.FoldKeepsRemainder` | include/util/logging.h:3216-3221 | Up to n = 100000 the folded count keeps the remainder of the true count. |
| `HitCounter.FoldSticks` | include/util/logging.h:3216-3221 | Beyond that it sticks at 100001. |
| `HitCounter.EveryNIff` | include/util/logging.h:3266-3275 | The k-th call fires iff n divides k, for every k, if and only if n is at most 100000. |
| `HitCounter.BeyondLimit` | include/util/logging.h:3266-3275 | For n above 100000 it never fires, except that with 100001 it fires on every call from the 100001st on. |
| `HitCounter.Registry.Find` | include/util/logging.h:3268-3271 | Finds or registers the site's counter; no count changes. |
| `HitCounter.Registry.ValidateEveryN` | include/util/logging.h:3266-3275 | Exactly this site's count advances, and the result is whether it is a multiple of n. |
| `HitCounter.ValidateAll` | include/util/logging.h:3266-3275 | Calls at many sites in any order: each fires exactly on the multiples of its own interval among its own calls. |

## Left out

- DBus (`lib/src/dbus.c`, `lib/src/lib/connector.c`), option parsing and start-up (`src/main.cpp`).
- FreeRDP's shadow server, region arithmetic and image conversion; pixman; the pixel formats other than 32 bits.
- Thread creation, start and stop timing, destructor sleeps, and data races (`listener_map` is read by the run loop without its lock; `isEmpty` is unlocked).
- Damage after the wire: the server keeps only the latest rectangle, so conservation is claimed up to the wire and not beyond.
- The display-update-complete message and the frame rate: the dispatcher ignores the message and a refresh returns a constant.
- Duplicate identifiers and explicit ports that are already held.
- A refresh whose copy is out of bounds: it is excluded by `RefreshInBounds` and not given a behaviour. Likewise a switch or a refresh of a pending box after a failed mmap, which would write through a null pointer.
- An empty vector in `processIncomingMessage`, whose first element the source reads unchecked, and exceptions of the foreign unpacker that the run loop does not catch.
- Partial failures of a multipart send in the broker: a message that the socket does not take is refused at its first frame.
- Allocation failures in the buffer, freeing of buffers, and the error codes that the codec sets when the stream's writer fails.
- Ext payloads of length zero, whose writer reports failure, and strings of 0xFFFFFFFF bytes.
- Arithmetic on floats (only their bits are carried), `cmp_write_decimal`, and the writers and readers of single formats that the selecting ones do not use.
- The str, bin, ext and map writers with payload are modelled on values (`MsgpackTree.Encode`), not on the growing buffer: a payload longer than the buffer's capacity is outside what `NnStr.SafeIff` allows.
- `validateAfterN`, `validateNTimes` and the rest of `include/util/logging.h`.
