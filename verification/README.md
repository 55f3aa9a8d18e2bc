# A verified model of the single program transport stream muxer

`src/` holds a GStreamer element that multiplexes one H.264 video and one AAC audio stream into
an MPEG-2 transport stream. This project models what the element writes, octet by octet, and
proves that a receiver built from ISO/IEC 13818-1 gets the frames back, where in the output a
receiver can start, what the counters count, and which corruptions of a table it notices.

    dafny verify dfyconfig.toml

## How it is put together

The C code edits buffers in place, so its model does too. Each module is a layer; every layer
has a specification function, an imperative part proved equal to it, and a receiver written from
the standard that inverts it.

| module | content |
|---|---|
| `Octets`, `Wrappers` | `guint8` and the silent truncation of stores; runs of stores through an advancing pointer |
| `Crc32` | `crc_tab` and the loop of `calc_crc32`, equal to bit-by-bit division by the polynomial |
| `CrcDetection` | which errors that CRC detects, and the zero residue |
| `Psi`, `PsiParse` | the table sections, the map section as a class grown in place; a table receiver and what it reads |
| `Pes` | the PES header in place; a PES receiver and the round trip |
| `Transport` | packet header edits, adaptation field and PCR in place; a packet receiver and the round trips |
| `Packetizer` | the packets of one frame, their number, and how each reads |
| `Schedule` | runs: which frames are accepted, padding, tables, counters, the whole output |
| `Spts` | the classes `Stream` and `SpTs`, with reused packet buffers, proved to send what `Schedule` says |
| `Receiver` | a demultiplexer; it inverts the multiplexer over every run |
| `Gop` | where tables stand in the output; random access |
| `Accounting` | continuity, conservation, statistics |
| `Clock` | clock references over runs, and the tables that announce them |
| `Merge`, `Muxer` | the selection of the next pad, merging, and the class `SpTsMuxer` for the whole element |

`SpTs` keeps two ghost fields, `trace` (everything handed to the write function) and `history`
(every frame passed to `spts_write_frame`); `SpTs.Valid` says that `trace` and all counters are
what `Schedule` gives for `history`. No octet of an earlier frame or of stuffing can survive in a
reused buffer, because `trace` is a function of the frames alone.

Integers are unbounded where the program uses 64-bit counters and wide lengths; every store into
an octet truncates explicitly (`ByteOf`). `Clock.ClockFits` shows that time arithmetic stays
within 64 bits for every `GstClockTime`. Frame times are converted to 90 kHz ticks by the floor
of `t * 90000 / 10^9`. Shifts that only place a marker bit are written as arithmetic (`v * 2 + 1`).

The receivers are strict and use no constant of the writer. They refuse reserved bits that are not
set, flags of fields that they do not read, scrambled packets, and anything but stuffing where
stuffing belongs; what they do not judge (priority, indicators, version and section numbers) they
return. The main statements give PIDs, stream types, stream ids, clock rates and sizes as numbers.

## What turned out to be false, and exactly when

- **A frame of 169 octets on a stream without PCR is lost.** The first packet gets an adaptation
  field of length zero, but its flags octet is written all the same (src/spts.c:222-223,
  438-446), so the PES header stands one octet late. `Receiver.AllFramesRecoveredIff` states the
  exact condition, `Receiver.MisfitIsLost` shows one such output. No other frame suffers
  (`Receiver.DemuxInvertsMux`).
- **Audio frames above 65527 octets carry a wrapped PES_packet_length** (src/pes.c:69-71). A receiver
  that checks the length drops exactly those; one that ignores it recovers them. Both receivers
  are modelled (`strict`); `Receiver.LongAudioIsLost` is a concrete case.
- **Groups of pictures start at multiples of 2102 packets** (README:8 speaks of random access
  without an index) exactly if no packet precedes the first IDR frame and no group but the last
  exceeds 2100 packets (`Gop.SelfIndexedIff`); otherwise they are late by
  the closed form of `Gop.OverrunClosedForm`. `Gop.EarlyFrameMovesTables` and
  `Gop.LargeGroupMovesTables` are two inputs that fail.
- **The map section that `psi_pmt_section_init` leaves has no CRC** and is rejected
  (`PsiParse.FreshPmtIsRejected`); any later operation stores one (`PsiParse.AcceptedIffTouched`).

Where code and comments differ the code is followed: src/spts.h:91-93 shows a transport priority
of 0, the code sets it (src/spts.c:162-169, 306); src/spts.c:401 says that a video frame comes first,
and audio in front of the first video frame is dropped without error; doc/sptsformats.txt:3 asks
for a descriptor in the association table, and the code writes none.

## Model

| member | source | states |
|---|---|---|
| `Octets.ValByteOf` | src/spts.c:229-234 | storing a wide value into an octet keeps it modulo 256 |
| `Crc32.TableEntry` | src/crc.h:1-45 | each of the 256 table entries is the remainder register after shifting its index octet through the polynomial 0x04c11db7 |
| `Crc32.ShiftLinear` | src/crc.h:1-45 | one division step is linear in the register, the reason why a table can replace eight steps |
| `Crc32.TurnIsOctetStep` | src/crc.h:53 | one turn of the table loop equals eight bit steps of the division, for every register and octet |
| `Crc32.CalcCrc32` | src/crc.h:47-57 | the loop over the octets equals bit-by-bit division of the whole message, from an all-ones register |
| `CrcDetection.BurstDetected` | src/crc.h:47-57 | two messages of equal length whose bits differ, but only inside 32 consecutive ones, have different CRCs |
| `CrcDetection.FourOctetsDetected` | src/crc.h:47-57 | so do messages that differ only inside four consecutive octets |
| `CrcDetection.ResidueIsZero` | src/psi.c:228-233 | message plus four octets divide to zero if and only if the four are its CRC as stored |
| `Psi.SectionHeaderSet` | src/psi.c:55-95 | the nine octets from pointer_field to last_section_number are stored, all else is untouched |
| `Psi.Seal` | src/psi.c:124-129 | the CRC covers the section without its pointer_field and is stored behind it, high octet first |
| `Psi.PatSectionSet` | src/psi.c:97-130 | the buffer holds the sealed association section, all else is untouched |
| `Psi.PmtSection.constructor` | src/psi.c:132-170 | the fresh section: no streams, PCR PID 0, no CRC, only stuffing behind; PIDs zero and stream types reserved |
| `Psi.PmtSection.PcrPidSet` | src/psi.c:172-195 | the packet afterwards is the one built at once with the new PCR PID: body, CRC, stuffing |
| `Psi.PmtSection.StreamAdd` | src/psi.c:197-234 | the packet afterwards is the one built at once with one stream more, and the other kind's PID and type are kept |
| `Psi.StorePcr` | src/psi.c:185-186 | overwriting two octets turns the section into the body with the new PCR PID |
| `Psi.StoreEntry` | src/psi.c:205-226 | a longer length and an entry over the old CRC turn the section into the body with that stream |
| `Psi.SealInPlace` | src/psi.c:228-233 | sealing the body in place gives the whole packet payload, stuffing undisturbed |
| `PsiParse.PatParses` | src/psi.c:97-130 | a receiver finds one complete section (version 0, section 0 of 0) with exactly the one program and its map PID, and behind it whatever follows |
| `PsiParse.PmtParses` | src/psi.c:172-234 | a sealed map section of up to 33 streams parses to its program, PCR PID and streams in order, as one complete section with only stuffing behind it |
| `PsiParse.IncrementalIsAtOnce` | src/psi.c:172-234 | any sequence of additions and PCR changes gives the section that the whole list would give at once |
| `PsiParse.PmtReadsBack` | src/psi.c:132-234 | after any non-empty sequence of operations a receiver reads the added streams in order and the last PCR PID |
| `PsiParse.FreshPmtHasNoCrc` | src/psi.c:132-170 | before any operation the section is valid if and only if its CRC happens to be all ones |
| `PsiParse.FreshPmtIsRejected` | src/spts.c:263-276 | for the program number of this multiplexer it is not |
| `PsiParse.AcceptedIffTouched` | src/psi.c:132-234 | the map section of this multiplexer is accepted if and only if some operation was applied |
| `PsiParse.CorruptionIsRejected` | src/psi.c:124-129 | a sealed section damaged within four consecutive octets, pointer_field and length intact, is not accepted |
| `PsiParse.DamagedPmtIsRejected` | src/psi.c:228-233 | so no map section with such damage is taken for another map; wider damage, and damage to pointer_field or length, is not covered |
| `Pes.PesHeaderSet` | src/pes.c:51-88 | the 14 header octets are stored and nothing else; the result is 14 |
| `Pes.PtsSet` | src/pes.c:79-85 | the five time stamp octets are stored and nothing else |
| `Pes.MaskExcessIsCut` | src/pes.c:80-82 | the octets stored with the 19-bit mask are those that a 15-bit mask would store |
| `Pes.PtsBack` | src/pes.c:79-85 | decoding gives the PTS modulo 2^33, prefix 0010 and all marker bits checked, for every PTS |
| `Pes.PesBack` | src/pes.c:51-88 | a frame behind its header parses, unscrambled, with no indicator and no optional field but the PTS, to stream id, PTS and exactly its data; a strict receiver refuses it if and only if the length does not fit 16 bits on a stream that declares it |
| `Pes.MisplacedIsNoPes` | src/spts.c:438-446 | a header one octet late is no PES packet, whatever follows |
| `Transport.SetStartIndicator` | src/spts.c:189-195 | the one octet is rewritten, the other 187 stay |
| `Transport.SetAdaptationControl` | src/spts.c:197-203 | likewise for adaptation_field_control |
| `Transport.IncrementContinuity` | src/spts.c:205-212 | likewise for the continuity counter |
| `Transport.StartEditKeepsRest` | src/spts.c:189-195 | the edit gives the header with that field changed and PID, control and counter as before |
| `Transport.ControlEditKeepsRest` | src/spts.c:197-203 | the edit changes the control field of the header and no other |
| `Transport.CounterEditKeepsRest` | src/spts.c:205-212 | the edit gives the header of the next packet, wrapping at 16, and no other field changes |
| `Transport.AdaptationSet` | src/spts.c:214-247 | length, flags, PCR and stuffing are stored behind the header and nothing else; the result is the octets written |
| `Transport.FieldSound` | src/spts.c:214-247 | with a positive length the field is length+1 octets and its unused octets are 0xff; a receiver reads the PCR given if the flags are 0x10, none if they are 0x00, and refuses others |
| `Transport.EmptyFieldSpillsFlags` | src/spts.c:222-246 | with length zero two octets are written although the length counts none |
| `Transport.PcrBack` | src/spts.c:225-235 | decoding six octets gives base modulo 2^33 and extension, for every clock value |
| `Transport.PlainPacketReads` | src/spts.c:112-144 | header and 184 payload octets read back as PID, start flag, counter and payload |
| `Transport.AdaptedPacketReads` | src/spts.c:214-247 | with an adaptation field the payload is what follows the octets its length counts |
| `Packetizer.MpegTime` | src/spts.h:78 | p ticks satisfy 10^9 p <= 90000 t < 10^9 (p+1), the floor of the time on the 90 kHz clock |
| `Packetizer.FrameCount` | src/spts.c:406-483 | a frame of n octets takes ceil((n+22)/184) packets with PCR, ceil((n+14)/184) without, and 2 for n = 169 without |
| `Packetizer.FirstReads` | src/spts.c:412-452 | the first packet on either path reads as start of a unit: PCR if due, PES header, first octets; a stray octet in front for 169; the flags octet is 0x10 with PCR and 0x00 without |
| `Packetizer.NextReads` | src/spts.c:462-483 | every further packet reads as the next octets of the frame, also the one short by one octet |
| `Packetizer.FrameReads` | src/spts.c:406-483 | all packets of a frame read back, counters consecutive, data in order and complete |
| `Spts.Stream.constructor` | src/spts.c:300-331 | a new stream has zero counters, no PCR and a packet with its header |
| `Spts.Stream.SetStart` | src/spts.c:407 | the start flag changes, header otherwise and payload are kept |
| `Spts.Stream.SetControl` | src/spts.c:458 | the control field changes, header otherwise and payload are kept |
| `Spts.Stream.Next` | src/spts.c:454-456 | the packet counter and the header's continuity counter advance together |
| `Spts.HeaderInit` | src/spts.c:112-144 | the packet is the header and 184 octets of 0xff |
| `Spts.NewPacket` | src/spts.c:146-182 | a fresh table packet with its header |
| `Spts.NewPat` | src/spts.c:249-261 | the packet of the association table |
| `Spts.NewNullPacket` | src/spts.c:278-288 | the null packet |
| `Spts.ThreeStores` | src/spts.c:429-432 | field, header and data stored in turn leave nothing of the old packet but its first four octets |
| `Spts.TwoStores` | src/spts.c:467-470 | the data overwrite the flags octet that a zero length spilled, so the last packet is right for every length |
| `Spts.SpTs.constructor` | src/spts.c:90-110 | a new writer has sent nothing and has no streams |
| `Spts.SpTs.AddStream` | src/spts.c:300-331 | the stream type selects which stream is created or replaced, at any time; its counters are zero, the other stream and all else are kept, and the run invariant too unless a stream with a past is replaced |
| `Spts.SpTs.SendFirst` | src/spts.c:412-452 | exactly the specified first packet is written, and exactly its share of the frame consumed |
| `Spts.SpTs.SendRest` | src/spts.c:461-483 | the loop writes exactly the specified further packets and consumes the frame |
| `Spts.SpTs.SendFrame` | src/spts.c:406-483 | the packets of a frame depend on PID, counter, start flag, PTS, PCR role and data alone |
| `Spts.SpTs.PsiWrite` | src/spts.c:290-298 | both tables are written with the counters of their PIDs and are ready for the next time |
| `Spts.SpTs.Pad` | src/spts.c:381-384 | null packets are written up to the planned start of the group, none if it has passed |
| `Spts.SpTs.CloseGop` | src/spts.c:391-397 | maxima and last-group counters of both streams |
| `Spts.SpTs.StartGop` | src/spts.c:373-398 | padding, tables and statistics of an IDR frame |
| `Spts.SpTs.WriteFrame` | src/spts.c:352-486 | the output grows by exactly what the schedule gives for the frame, and the invariant over the whole run is kept; the streams asked for are those the code dereferences |
| `Schedule.RunAppend` | src/spts.c:352-486 | a run over two lists of frames is the second continued in the state the first leaves |
| `Schedule.TraceLength` | src/spts.c:381-455 | the global counter equals the number of packets sent |
| `Receiver.DemuxInvertsMux` | src/spts.c:352-486 | from every state and over every run, demultiplexing gives per stream and in order one entry for each accepted frame: the frame, or nothing for one that does not survive |
| `Receiver.AllFramesRecoveredIff` | src/spts.c:437-446 | all frames from the first video frame on come back unharmed if and only if none without PCR has 169 octets and, for a strict receiver, none is too long for its length field |
| `Receiver.AcceptedFromStart` | src/spts.c:399-402 | accepted are the frames of the kind from the first video frame on |
| `Receiver.VideoFromFirstVideo` | src/spts.c:370-372 | for video these are all of them |
| `Receiver.FrameComesBack` | src/spts.c:352-486 | in plain numbers: on PID 0x40 or 0x41 each such frame comes back with its data, stream id 0xe0 or 0xc0, PES_packet_length 0 or its size plus 8, and the floor of its time on the 90 kHz clock modulo 2^33, if and only if its size is one that does |
| `Receiver.MisfitIsLost` | src/spts.c:437-446 | an audio frame of 169 octets is lost, unless audio carries the clock |
| `Receiver.LongAudioIsLost` | src/pes.c:69-71 | an audio frame of 65528 octets declares length zero; a strict receiver loses it, a lenient one does not |
| `Gop.TablesStartGroups` | src/spts.c:381-390 | the positions at which a receiver finds tables solve start(g+1) = max(start(g)+2+c(g), 2102(g+1)) |
| `Gop.OverrunClosedForm` | src/spts.c:381-390 | a group is late by the largest suffix sum of the excesses over 2100, zero included, or by their full sum with the packets before the first IDR frame |
| `Gop.OverrunBoundedIff` | src/spts.c:381-390 | no group is late by more than B if and only if no window of groups takes more than B packets too many |
| `Gop.StartsAsPlannedIff` | src/spts.c:381-390 | every group is on time if and only if nothing precedes the first and none but the last exceeds 2100 packets |
| `Gop.SelfIndexedIff` | README:8 | the same on the output: all tables stand at multiples of 2102 under exactly that condition |
| `Gop.TablesLateByAtMostIff` | src/spts.c:381-390 | the window condition, on the positions of the tables in the output |
| `Gop.EarlyFrameMovesTables` | src/spts.c:381-390 | a delta frame before the first IDR frame puts the table at packet 1 |
| `Gop.LargeGroupMovesTables` | src/spts.c:381-390 | a group of 2101 packets puts the next table at packet 2103 |
| `Gop.EnterAtIdr` | src/spts.c:373-402 | whatever audio was dropped first, at the start of every group stand both tables and the first packet of the IDR frame, and demultiplexing from there gives exactly the frames from it on |
| `Gop.RandomAccess` | README:8 | if the first frame written is an IDR frame and the groups are within plan, this start is packet 2102*g, found without an index |
| `Accounting.Continuity` | src/spts.c:205-212 | on each of the four PIDs the k-th packet of the whole output carries counter k mod 16 and the priority bit |
| `Accounting.Conservation` | src/spts.c:381-397 | every counter equals what a receiver counts on its PID, and all packets are tables, null packets, video or audio |
| `Accounting.NullsAreNull` | src/spts.c:278-288 | every packet on PID 0x1fff is only stuffing, without start, priority or field |
| `Accounting.PayloadConserved` | src/spts.c:426-483 | the payload octets of a stream are its accepted frames, 14 octets a frame, and one stray octet for each 169-octet misfit |
| `Accounting.OctetsConserved` | src/spts.c:426-483 | 184 times the packet counter of a stream is those octets plus the octets of all adaptation fields in its packets |
| `Accounting.StatisticsAreTrue` | src/spts.c:390-397 | the maximum of a stream is the true maximum over all closed stretches between tables, the last-group counter their sum |
| `Accounting.FramesCounted` | src/spts.c:372-391 | frames_counter is the number of video frames, last_gop_frames_counter that up to the last IDR frame; audio frames are not counted |
| `Clock.ClockMonotone` | src/spts.c:417-421 | clock references follow the order of time stamps and never run ahead of 300 times the PTS |
| `Clock.ClockFits` | src/spts.c:408-421 | time arithmetic stays within 64 bits for every clock time |
| `Clock.ClockFollowsPts` | src/spts.c:413-429 | decoded from the output, each PTS is the floor of its frame's time on the 90 kHz clock, and ahead of its PCR base by min(PTS, 10250), modulo 2^33; the extension is 0 |
| `Clock.ClockNeverRunsBack` | src/spts.c:413-429 | the references decoded from the output are those of the accepted frames, in order, and never run back while the time stamps do not |
| `Clock.TablesReadBack` | src/spts.c:290-298 | every table in every output is one complete section with only stuffing behind it, and parses to program 0x16 on PID 0x20, and to the streams and PCR PID set up |
| `Clock.ClockIsWhereAdvertised` | src/sptsmuxer.c:263-270 | with the clock on video, or on audio alone, every packet with a PCR is on the PID that every map section of the output names |
| `Merge.ChoiceIsEarliest` | src/sptsmuxer.c:275-296 | if the first head has a time stamp the choice is an earliest head, of equal ones the first pad |
| `Merge.NextIsRight` | src/sptsmuxer.c:275-296 | for all queues the choice is right: none if and only if nothing waits, an untimed first head, else the first of the earliest heads |
| `Merge.RightChoiceUnique` | src/sptsmuxer.c:275-296 | there is no other right choice |
| `Merge.CollectTakesRight` | src/sptsmuxer.c:298-303 | a collection takes nothing if and only if nothing waits, else exactly the head of the right pad, and leaves all other frames |
| `Merge.CollectionsDrain` | src/sptsmuxer.c:298-303 | as many collections as frames wait empty all pads |
| `Merge.EverythingIsTaken` | src/sptsmuxer.c:298-303 | after any run, enough further collections have taken from each pad all that ever arrived there, in order |
| `Merge.ChoiceNone` | src/sptsmuxer.c:278-280 | nothing is chosen if and only if every pad is empty |
| `Merge.UntimedFirstHead` | src/sptsmuxer.c:286-288 | a first head without time stamp ends the search |
| `Merge.MergeInterleaves` | src/sptsmuxer.c:298-303 | what was taken from a pad and what waits is what was there and what arrived, in order, whatever happens when |
| `Merge.MergeSorts` | src/sptsmuxer.c:275-303 | if each pad delivers in order and none that has more to come is empty at a collection, the merged frames are in order of time, and at equal times in order of pads |
| `Merge.RunWithEmptyPad` | src/sptsmuxer.c:277-280 | a pad on which nothing arrives changes neither the queues of the others nor what is taken |
| `Muxer.SpTsMuxer.constructor` | src/sptsmuxer.c:153-169 | a new element with a new writer has no pads and has written nothing |
| `Muxer.SpTsMuxer.RequestPad` | src/sptsmuxer.c:308-347 | pads, streams and map section stay in step, in the order of requests; the stream and the pad are new, the other stream and what was taken are kept |
| `Muxer.SpTsMuxer.ChoosePad` | src/sptsmuxer.c:275-296 | the loop with its two variables and its early exit finds the right pad |
| `Muxer.SpTsMuxer.AssignClock` | src/sptsmuxer.c:263-270 | the clock goes to the video stream, or to audio if it is alone, and the map section says so |
| `Muxer.SpTsMuxer.Collected` | src/sptsmuxer.c:249-306 | one collection takes the head of the right pad, or nothing if and only if nothing waits, and hands it to the writer; the invariant over all events is kept, with one stream or two |
| `Muxer.SpTsMuxer.Push` | src/sptsmuxer.c:278 | an arriving frame waits at the end of its pad and nothing is written |
| `Muxer.KindIsPad` | src/sptsmuxer.c:298-300 | with one pad a kind the frames of the kind, as written, are those taken from its pad |
| `Muxer.NothingIsLost` | src/sptsmuxer.c:298-303 | in every reachable state what was taken from a pad and what waits there is what arrived |
| `Muxer.SpTsMuxer.Happen` | src/sptsmuxer.c:157-158 | an arrival or a collection keeps the invariant |
| `Muxer.Run` | src/sptsmuxer.c:153-169 | creating the element, requesting both pads and then any sequence of arrivals and collections is possible, and the output is a function of that sequence |
| `Muxer.ElementRoundTrip` | src/sptsmuxer.c:249-306 | in every reachable state demultiplexing the output gives the frames handed to the writer, audio from the first video frame on |
| `Muxer.ElementVideoRoundTrip` | src/sptsmuxer.c:298-303 | for video these are the frames taken from its pad |
| `Muxer.ElementAudioRoundTrip` | src/spts.c:399-402 | for audio, with ordered arrivals, they are those taken that are later than the first video frame, or as late with the audio pad behind the video pad |
| `Muxer.ElementRandomAccess` | README:8 | the g-th IDR frame written is found at packet 2102*g of the element's output, under the conditions of `Gop.RandomAccess` |
| `Muxer.ElementAdvertises` | src/sptsmuxer.c:318-326 | every map section written names program 0x16, PID 0x40 for the clock, and the requested streams in order: type 0x1b on PID 0x40, type 0x0f on PID 0x41 |
| `Muxer.ElementWritesInOrder` | src/sptsmuxer.c:275-303 | with ordered arrivals and heads ready the frames reach the writer in order of time |
| `Muxer.ElementClockNeverRunsBack` | src/sptsmuxer.c:249-306 | with video arriving in order the clock in the output never runs back, however audio is interleaved |

## Left out

- GStreamer itself: caps, segments, state changes, properties, reference counts, debug output. A frame is its kind, delta flag, time stamp and octets; caps other than the two kinds are not modelled.
- `sptsmuxer_push_packet_cb` (src/sptsmuxer.c:208-247): it gathers packets but pushes buffers into which it never copies them, so there is no content to state. Writing means appending to a trace here.
- `spts_pcronly_write` (its body is disabled), `muxrate`, `psi_interval`, `pcr_interval`, `last_pcr_ts`, `last_psi_ts`: without effect on the output.
- Fast forward and rewind (README:9): not in the code.
- An IDR frame without an audio stream: the code dereferences a null pointer there (src/spts.c:395). `SpTs.CanWrite` asks for exactly the streams that are dereferenced.
- Muxer.SpTsMuxer.RequestPad: pads requested after the first collection are not covered; the map section would change in the middle of the output, and the clock is assigned only once (src/sptsmuxer.c:258-273).
- Psi.PmtSection.StreamAdd: stream types other than the two of src/psi.h:53-54, with which the only caller calls it, are not covered (the entry would lack its type octet), nor is a 34th stream, which would be written past the packet.
- Transport.AdaptationSet: a PCR flag with a length from 1 to 6, and lengths above 183, are not covered; the stuffing would be written past the 188 octets of the packet, and no call asks for it.
- Wrap-around of 64-bit counters, frames within 22 octets of 4 GiB (where the 32-bit sums of src/spts.c:426 and 438 wrap), and allocation failure.
- `spts_release` and the destruction of pads.
- The one body of `spts_write_frame`, as a unit: it is split into named parts (`StartGop`, `SendFirst`, `SendRest` and others), and the fields of the header information that never change are constants. The code that src/spts.c:146-182 repeats from src/spts.c:112-144 is modelled once.
