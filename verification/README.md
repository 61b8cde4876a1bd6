# gb28181-rs: a verified model of its media path, calendar, handshake and parsers

This project models, in Dafny, the parts of the GB/T 28181 device library where correctness rests on several functions
at once, and proves what those parts promise together. Four groups of modules:

- **Media.** `AnnexB`, `Pes`, `PsMux`, `PsDemux`, `PsRoundTrip`, `PsFalsePackets`, `PsWalk` cover the Program Stream
  muxer and demuxer of `src/ps.rs`. The demuxer never follows a declared length: it parses at every `00 00 01` followed
  by a video id. Its round trip therefore rests on showing which bytes can pass for a start code, and what comes of those
  that do. `Segment` and `Sidecar` cover the independent look-back splitter, access-unit grouping and the sidecar of
  `src/segment.rs`. `Frames`, `Rtp`, `Playback` and `PlaybackRuns` cover frame selection, the playback loop as a class
  and a state machine, RTP chunking and the receiver, up to an end-to-end statement over every run.
- **Calendar.** `Calendar` proves three date-to-days formulas equal to each other and to a month-by-month count for every
  year, and the inverse correct; `TimeText` proves the two text forms of an instant against their parsers.
- **Handshake.** `Headers`, `Crypto`, `PlatformSide`, `DeviceSide`, `Handshake`, `HandshakeRuns`,
  `HandshakeDisagreement` and `Note` cover the GB 35114 A-level REGISTER exchange. `verify_register` and `verify_ok` are
  split at their critical sections, so calls interleave; headers on the network are arbitrary text; signing and sealing
  are ideal (a log of signatures made and envelopes sealed).
- **Parsers and the subscription book.** `Sip`, `Sdp`, `Digest` with `DigestExact`, and `Subscriptions`.

`Octets`, `Text` and `Results` hold what the others share. Code that works step by step is a method or a class here, each
proved equal to a specification function; the lemmas are about those functions. What both ends of an exchange compute
alike, such as signed, hashed and printed octets, is also named byte by byte, since no round trip would tell. Where a
stated law fails, a lemma gives the failing input or run and another the exact condition.

Some results that a reader of the code may not expect:

- A unit that starts with a byte E0..EF makes the demuxer meet a packet that is none. Whether the units still come back
  depends on the bytes that packet's header is read from; the exact condition is proved for any number of such units
  in one packet (`PsFalsePackets.OnePacketRoundTrip`, `PsFalsePackets.OneVideoUnitRoundTrip`), with a family of units
  that return longer than they were (`PsFalsePackets.VideoRangeUnitIsDoubled`).
- The two Annex B splitters of the library differ on data without a start code and on data that ends in a bare one
  (`Segment.SplittersAgree`).
- A completed REGISTER is completed once more, with a new key, exactly while its challenge is the pending one and it is
  not the cached Authorization (`HandshakeRuns.CompletedAgain`). Two overlapping copies of one REGISTER
  (`HandshakeDisagreement.RaceLeavesTwoKeys`) and two answers to one challenge sent in turns, without any overlap
  (`HandshakeDisagreement.TurnsLeaveTwoKeys`), both leave the device with the first key drawn and the platform with the
  last. A completion may also answer a challenge that is no longer pending (`HandshakeRuns.CompletionMayBeStale`).
- A device takes an answer by the answer's own mode, whatever the mode of the challenge it answered
  (`HandshakeRuns.AnswerIsTaken`).
- What sign2 covers has no separators: device and platform agree on an exchange exactly if their randoms and device IDs
  are equally long (`HandshakeRuns.AnswerIsSigned`).
- The pacing subtraction underflows in some run of a session, paced or not, exactly if some frame list is out of time
  order (`PlaybackRuns.SafeIffOrdered`).
- A Digest header in which any quoted value holds a quote never reads back, although the reader goes on behind such a
  value and may find the same keys again inside other values (`DigestExact.DigestRoundTrip`).
- A SIP header value folded onto a second line is lost to a new header exactly if that line holds a colon
  (`Sip.FoldedValueIsJoined`).

`src/ps.rs` lays out its PES header differently from section 2.4.3.6 of ISO/IEC 13818-1, which its comment cites: one
flags byte instead of two, and a gap byte behind the optional fields. The model follows the code.

## Model

| member | source | states |
|---|---|---|
| `AnnexB.FindNalStartCodes` | src/ps.rs:318-342 | The look-ahead scan returns the codes of its specification function |
| `AnnexB.ScanFindsExactlyTheCodes` | src/ps.rs:318-342 | That list holds exactly the start codes of the data, defined without a scan, in order; a three-byte code is never reported where a four-byte code covers it |
| `AnnexB.SplitNalUnits` | src/ps.rs:344-369 | The splitting loop returns the bytes between neighbouring codes, empty units dropped, the whole data if there is no code |
| `AnnexB.SplitInvertsStream` | src/ps.rs:344-369 | Splitting the muxer's elementary stream returns its units if and only if every inner unit is non-empty, holds no code and does not end in 0, and the last is non-empty with at most a bare code at its end |
| `PsMux.JoinNalus` | src/ps.rs:632-643 | The joining loop writes a four-byte code before the first unit and three-byte codes before the others |
| `PsMux.StreamGrows` | src/ps.rs:632-643 | Appending a unit to the stream appends a start code and the unit, the code being of four bytes for the first unit and of three for every other |
| `Pes.TimestampRoundTrip` | src/ps.rs:470-478 | A time stamp decodes to its value modulo 2^33 under every prefix nibble |
| `Pes.BuildPesPacket` | src/ps.rs:498-567 | The builder writes header, stamps, gap byte and payload of the packet layout |
| `Pes.ParsePesPacket` | src/ps.rs:119-237 | The parser equals a total function with three outcomes: packet and size, error, index out of range |
| `Pes.PesRoundTrip` | src/ps.rs:119-256 | A built packet followed by any bytes parses to its id, payload, stamps modulo 2^33 and own size if and only if the id is C0..EF, a DTS has a PTS, and nothing follows or the declared length is not 0 |
| `Pes.PesLayout` | src/ps.rs:498-567 | A built packet byte by byte: id, big-endian declared length that is 0 for nothing or too much, stamp flags, header length, stamps with prefix and markers, one zero byte, payload |
| `Pes.ElementaryIsCut` | src/ps.rs:160-237 | Any audio or video packet, its declared length true or not: the payload reaches from behind the announced header and the gap byte to the declared end, to the end of the buffer if that comes first or none is declared, and is empty if the length ends within the header |
| `PsMux.MuxNalusToPs` | src/ps.rs:613-665 | The muxer writes pack header, stream map for key frames, and the chain of bounded PES packets over the joined stream |
| `PsMux.AddPesPackets` | src/ps.rs:645-662 | The chunk loop writes packets of at most 65000 payload bytes, the stamps on the first only |
| `PsMux.PackHeaderCarriesClock` | src/ps.rs:389-416 | The pack header carries the 33-bit clock base, the extension and the 22-bit rate where section 2.5.3.3 of ISO/IEC 13818-1 puts them, all marker bits set |
| `PsMux.MuxCarriesClock` | src/ps.rs:613-665 | Every muxed buffer opens with its time stamp on the 27 MHz clock: base `pts` modulo 2^33 and extension 0 as long as `pts * 300` fits 64 bits, else those of the product modulo 2^64, rate 10000; a key frame has its 17-byte stream map with the stream type next, any other frame its first packet, which carries both stamps |
| `PsDemux.FindPsStartCodes` | src/ps.rs:36-51 | The scan returns the positions of its specification function |
| `PsDemux.ScanMeetsEveryVideoCode` | src/ps.rs:262-294 | Although the scan skips three bytes behind each code, the parses made are those at every video start code of the buffer |
| `PsDemux.ParsePsToH264` | src/ps.rs:262-294 | The demuxer returns the non-empty payloads of the parses at all video start codes, in order, or its error outcomes |
| `PsDemux.ParsePsToNalUnits` | src/ps.rs:300-314 | The units are the split of the concatenated payloads |
| `PsDemux.PassOver` | src/ps.rs:262-294 | Bytes in front of a buffer add one parse for each video start code that begins among them, and none otherwise |
| `PsDemux.DemuxOutcomes` | src/ps.rs:262-314 | A buffer is refused exactly if no start code has a byte behind it, and fails out of range exactly if at some video start code the parser runs off; with start codes of other packets alone it yields nothing |
| `PsRoundTrip.VideoCodesOfStampedPacket` | src/ps.rs:534-561 | Behind the front of a packet with stamps a video code begins only inside its chunk, for all stamp values |
| `PsRoundTrip.VideoCodesOfBarePacket` | src/ps.rs:534-561 | Behind the front of a packet without stamps it begins inside the chunk, or in the header's last two zeros if the chunk starts `01 Ex` or `00 01 Ex` |
| `PsRoundTrip.PacketOutcomes` | src/ps.rs:262-294 | A packet adds its own correct parse, and no other exactly if its chunk is clean |
| `PsRoundTrip.ChainOutcomes` | src/ps.rs:645-662 | The demuxer meets at least one packet per chunk, and exactly the chunks themselves if and only if every chunk is clean |
| `PsRoundTrip.HeadersAreSilent` | src/ps.rs:389-464 | Neither pack header nor stream map holds or completes a video start code, for every time stamp and stream type |
| `PsRoundTrip.DemuxMeetsChunks` | src/ps.rs:262-294 | With clean chunks the payloads met are the chunks, in order |
| `PsRoundTrip.DemuxInvertsMux` | src/ps.rs:613-665 | With clean chunks, demuxing what was muxed returns the same units if and only if they can be told apart in the stream |
| `PsRoundTrip.VideoCodesOfStream` | src/ps.rs:613-643 | A splittable stream holds a video start code exactly if one of its units starts with E0..EF |
| `PsRoundTrip.SafeUnitsRoundTrip` | src/ps.rs:613-665 | The round trip for every list of units under a condition a caller can check before muxing |
| `PsRoundTrip.OnePacketIsClean` | src/ps.rs:613-665 | For a stream that fits one packet, the demuxer meets a single packet exactly if no unit starts with E0..EF |
| `PsFalsePackets.OnePacketUnits` | src/ps.rs:262-294 | For a splittable stream in one packet, whatever the first bytes of its units, the demuxer returns the split of the stream followed by what the false packets carry, or its error outcomes |
| `PsFalsePackets.OnePacketRoundTrip` | src/ps.rs:613-665 | Its units come back if and only if no false packet makes the parser run off the buffer and what they all carry may follow the last unit: nothing, or start codes alone that take none of its trailing zeros and leave no bare code inside, or, for a last unit of at most three bytes that goes into a start code itself, that unit again; any number of units may start with E0..EF |
| `PsFalsePackets.OneVideoUnitRoundTrip` | src/ps.rs:613-665 | With exactly one unit that starts with E0..EF and a last unit that is more than the front of a start code, they come back if and only if the bytes behind the former's start code are too few for a header, announce more header than there is, or announce a packet without payload |
| `PsFalsePackets.LastUnitIsRepeated` | src/ps.rs:262-294 | Why the last unit matters: a false packet that carries `00 00 01 x` once more gives x twice, but a last unit `00` comes back alone |
| `PsFalsePackets.VideoRangeUnitRoundTrip` | src/ps.rs:119-237 | The same for a single unit, whose own bytes are that header |
| `PsFalsePackets.VideoRangeUnitIsDoubled` | src/ps.rs:262-294 | A family of single units that return with their last byte doubled, and one-byte units that come back although they are not safe to mux |
| `PsWalk.MuxWalksByLength` | src/ps.rs:498-567 | Walking by declared length alone ends at the buffer's end, every length counts the bytes behind it, payloads add up to the stream, only the first packet is stamped, and the size is 14 + 17 if key + 10 + stream + 9 per packet |
| `PsWalk.ChunksAreFull` | src/ps.rs:645-662 | Every packet of a buffer but the last carries 65000 bytes of stream, the last no more, and only an empty stream gives an empty packet |
| `Segment.FindStartCodes` | src/segment.rs:43-67 | The look-back scan returns the positions of its specification function |
| `Segment.Parse` | src/segment.rs:70-126 | The slicing loop returns the units between positions, trailing zeros of four-byte codes left out, and never slices out of range on any input |
| `Segment.SplittersAgree` | src/segment.rs:43-126 | Look-back and look-ahead splitter return the same units if and only if the data is empty, or holds a code and does not end in a bare three-byte one |
| `Segment.ParseInvertsWritten` | src/segment.rs:70-126 | Splitting units written behind four-byte codes returns them if and only if none is empty or holds a code |
| `Segment.ParsedUnitsHoldNoCode` | src/segment.rs:70-126 | On any data, no unit returned is empty or holds a start code |
| `Segment.GroupAus` | src/segment.rs:165-179 | The grouping loop with its pending buffer equals the recursive grouping |
| `Segment.ReadInvertsWritten` | src/segment.rs:165-179 | Reading back returns the access units with their key flags if and only if each is non-slices followed by exactly one slice, none empty or holding a code |
| `Sidecar.LoadPts` | src/segment.rs:186-210 | The line loop returns the sidecar's times up to the count, or the fixed cadence when there are too few |
| `Sidecar.TimesOfWritten` | src/segment.rs:186-227 | A written sidecar is used exactly if it holds enough times, and then time by time; else the i-th unit is timed at 40 i milliseconds |
| `Sidecar.OtherLines` | src/segment.rs:212-227 | A bare key and a quoted number are read as well; another key is no time |
| `Sidecar.ReadSegmentFile` | src/segment.rs:142-156 | Reading is parsing, grouping and timing |
| `Sidecar.SegmentRoundTrip` | src/segment.rs:142-156 | A written segment with its sidecar is read back unit by unit with flags and times |
| `Frames.BuildFrames` | src/playback.rs:127-181 | The nested loops with their continue and break select the frames of the specification function |
| `Frames.FramesAreRequested` | src/playback.rs:127-181 | On well-kept recordings that is, per readable segment, every in-range unit from the first in-range key frame on: nothing missed, nothing else taken |
| `Frames.SelectionIsExact` | src/playback.rs:127-181 | For recordings in any order and with any times: a unit is taken if and only if it is not before the start, a key frame that is not either stands at or before it in its segment, no such unit up to it lies behind the end, and its segment, readable, is reached in the same sense |
| `Frames.FramesOrdered` | src/playback.rs:127-181 | All frames lie in the requested interval, in non-decreasing time order |
| `Rtp.BuffersOfSession` | src/playback.rs:367-396 | Collecting payloads up to each marker gives the frames' bytes back, one by one |
| `Rtp.SessionPackets` | src/playback.rs:367-396 | Sequence numbers count from 0 modulo 2^16, payloads have 1 to 1400 bytes, one marker per frame |
| `Rtp.PacketsAreStamped` | src/playback.rs:367-396 | The packet behind i others has number i modulo 2^16, payload type 96, the time stamp 3000 n modulo 2^32 for n frames before it, and 1400 bytes unless it is the last of its frame |
| `Rtp.ReceiverSeesDeliveries` | examples/playback_demo.rs:381-389 | Demuxing each collected buffer returns the delivered frame's units if they are safe to mux, and, for a frame that fits one packet, if and only if the false packets in it vanish |
| `Playback.Task.constructor` | src/playback.rs:294-305 | A task starts with the frames of its interval, unpaused, at speed 1 |
| `Playback.Task.ApplyControl` | src/playback.rs:184-210 | Pause, play, seek and speed change exactly the state they name and re-anchor pacing |
| `Playback.Task.SendFrame` | src/playback.rs:360-397 | One frame goes out with new stamps and numbers, or up to the packet that fails |
| `Playback.Task.SendPieces` | src/playback.rs:367-395 | The chunk loop sends the packets of the frame, the marker on the last, numbers running on |
| `Playback.Task.Turn` | src/playback.rs:309-398 | One turn of the loop equals one step of the state machine, in every mode |
| `Playback.Task.RunLoop` | src/playback.rs:309-400 | The loop equals the run of the state machine over its events |
| `PlaybackRuns.RunKeepsSound` | src/playback.rs:309-397 | Over every run the index stays in the list of the last seek, the frame at hand is never before its base, and MediaStatus is sent at most once and only after the list is exhausted |
| `PlaybackRuns.SessionPlaysPrefixes` | src/playback.rs:309-397 | Over every run the frames sent are, between seeks, a prefix of the list of the last seek, once each in order |
| `PlaybackRuns.NothingSentWhilePaused` | src/playback.rs:309-317 | Between a pause and the next play nothing is sent |
| `PlaybackRuns.PacedTurn` | src/playback.rs:328-357 | A paced turn acts on a command if and only if the channel is open and the frame not yet due: at a positive speed, if its distance from the base is at least the whole milliseconds passed since the anchor, plus one, times the speed; where the delay saturates, or at speed 0 behind the base, if less than 2^64 - 1 ms have passed; else if the anchor is still to come. In all other cases the frame goes out |
| `PlaybackRuns.CommandsRule` | src/playback.rs:184-210 | Over every run, speed, pacing anchor and pause are those of the last commands acted on: the speed last asked for, the time of the last Play, a Pause with no Play behind it |
| `PlaybackRuns.SessionObeys` | src/playback.rs:294-305 | A session runs at speed 1, anchored at its start and unpaused, until told otherwise |
| `PlaybackRuns.SessionIsPacedFromPlay` | src/playback.rs:184-210 | Over every run frames are paced against the frame the list stood at when the session started or the last Play was acted on, and the control channel stays open while nobody closes it |
| `PlaybackRuns.ReceiverSeesWhatWasPlayed` | src/playback.rs:364-396 | End to end over every run: consecutive numbers across pauses and seeks, bounded payloads, one marker per whole frame, and the receiver gets exactly the units of the frames sent, under the condition that is exact for frames of one packet |
| `PlaybackRuns.BuffersOpenAsSent` | src/playback.rs:364-397 | Over every run each buffer opens with the clock and stamps of its frame's place in its list, 3000 a frame from 3000 on and anew after a seek, and holds a stream map if and only if the frame is a key frame |
| `PlaybackRuns.UndisturbedSessionCompletes` | src/playback.rs:309-397 | Left alone, a session plays its whole list and then reports the end |
| `PlaybackRuns.SafeIffOrdered` | src/playback.rs:328-332 | The pacing subtraction is safe over all runs of a session, paced or not, with seeks, pauses and resumes, if and only if every frame list the recordings can yield is in time order |
| `PlaybackRuns.WellRecordedSessionsAreSafe` | src/playback.rs:127-181 | Well-kept recordings make every session safe |
| `Calendar.FormulasAgree` | src/manscdp.rs:402-413 | The three formulas agree for every year, month 1..12 and day 1..31, truncating era division included |
| `Calendar.FormulasCount` | src/sip.rs:561-567 | They equal the days counted month by month from the Gregorian leap rule, before and after 1970 |
| `Calendar.CivilCounts` | src/client.rs:1358-1368 | For every day number, negative ones included, the inverse yields a valid date that counts to it |
| `Calendar.CivilInvertsCount` | src/security35114/integrity.rs:23-35 | Every valid date comes back from its day number |
| `TimeText.FormatThenParse` | src/client.rs:1354-1378 | Parsing a printed instant floors it to the second if and only if its local year is at most 9999 and the offset is in whole minutes, for local times not before the epoch; before it, exactly when the instant happens to be the shown epoch |
| `TimeText.ParseThenFormat` | src/manscdp.rs:325-361 | Printing a parsed valid naive string gives the string back in every whole-minute zone |
| `TimeText.TailsAreRead` | src/manscdp.rs:341-361 | A time with the tail `Z` is UTC whatever the local zone, `+hh:mm` and `-hh:mm` move it by exactly that much, and without a tail it is local, the offset cut to whole minutes |
| `TimeText.PrintedTimeCounts` | src/client.rs:1354-1378 | Through the year 9999 the printed date is valid and its fields count up to the local instant in whole seconds, or to the epoch if that is later |
| `TimeText.DateHeaderRoundTrip` | src/security35114/integrity.rs:14-84 | The Date header carries its instant to the millisecond if and only if its year is at most 9999 |
| `TimeText.DatesAreChecked` | src/security35114/integrity.rs:50-84 | A Date header in printed form is refused exactly if its month, day, hour, minute or second is none of the calendar's |
| `Headers.ParseParams` | src/security35114/headers.rs:88-132 | The index loop returns the parameters of the specification function, or that a key runs into the end of the header |
| `Headers.ListReadsBack` | src/security35114/headers.rs:88-140 | A printed parameter list reads back under its keys if and only if no value holds a quote |
| `Headers.BareReadsLikeQuoted` | src/security35114/headers.rs:106-128 | A bare value under a key in any case reads like the quoted value under the lower-case key |
| `Headers.ListBreaksOff` | src/security35114/headers.rs:88-132 | An unclosed quote takes in the rest of the header, a key without an equals sign ends the list, a character that starts no key too, and a key at the very end runs off the header |
| `Headers.FirstValueCounts` | src/security35114/headers.rs:134-140 | Of several values under a key the first counts |
| `Headers.ChallengeRoundTrip` | src/security35114/headers.rs:175-197 | A printed challenge parses to itself if and only if its random is non-empty and holds no quote |
| `Headers.ChallengeOnWire` | src/security35114/headers.rs:192-197 | The challenge letter by letter |
| `Headers.OtherSchemesAreRefused` | src/security35114/headers.rs:142-148 | No header of another scheme is read as a challenge, an Authorization or a SecurityInfo |
| `Headers.AuthorizationRoundTrip` | src/security35114/headers.rs:241-290 | The same for an Authorization: if and only if all required values are non-empty and none holds a quote, in both modes |
| `Headers.AuthorizationOnWire` | src/security35114/headers.rs:241-262 | The Authorization letter by letter in both modes |
| `Headers.SecurityInfoRoundTrip` | src/security35114/headers.rs:295-341 | The same for a SecurityInfo in both modes; Unidirection carries only key and algorithm |
| `Headers.SecurityInfoOnWire` | src/security35114/headers.rs:329-341 | The SecurityInfo letter by letter in both modes |
| `Crypto.SignAuthPayloadIsInjective` | src/security35114/crypto.rs:165-179 | With randoms of fixed length, what sign1 covers determines all operands |
| `Crypto.Sign2PayloadIsInjective` | src/security35114/crypto.rs:184-213 | With randoms and IDs of fixed length, what sign2 covers determines all operands, in both orders and encodings |
| `Crypto.PayloadsWithoutSeparatorsCollide` | src/security35114/crypto.rs:165-213 | Without fixed lengths it does not: concrete operands with equal payloads |
| `Crypto.SignAuthOctets` | src/security35114/crypto.rs:165-179 | What sign1 covers by position: the second random, the first, the server ID, the randoms as they stand or decoded |
| `Crypto.Sign2Octets` | src/security35114/crypto.rs:184-213 | What sign2 covers by position, in both orders and encodings |
| `PlatformSide.Configured` | src/security35114/platform.rs:149-174 | A configuration fails exactly without a server ID or on Bidirection without an identity; a mode asked for is taken, else it is Bidirection exactly if there is an identity; the rest is kept |
| `PlatformSide.Platform.constructor` | src/security35114/platform.rs:169-173 | A platform starts without sessions |
| `PlatformSide.Platform.Challenge` | src/security35114/platform.rs:183-216 | A challenge sets mode and random of one session, forgets its completed exchange, keeps its key and, unless a new one is announced, its certificate; other sessions stay |
| `PlatformSide.ChallengeStartsAnew` | src/security35114/platform.rs:183-216 | Behind a challenge every Authorization over another random is refused and changes nothing, the one answered before included; the negotiated key stays and no other session changes |
| `PlatformSide.Platform.ReadSession` | src/security35114/platform.rs:229-241 | The first critical section only reads |
| `PlatformSide.Platform.StoreCompletion` | src/security35114/platform.rs:323-328 | The second writes key, Authorization and answer into the session as it is by then |
| `PlatformSide.Platform.VerifyRegister` | src/security35114/platform.rs:226-330 | With nothing in between, a call decides and stores as the specification says, check by check |
| `PlatformSide.CallsAreJudged` | src/security35114/platform.rs:226-290 | A call is refused for the first of the checks that fails, in the order of the source, and accepted exactly if none does; the configured certificate counts before the announced one |
| `PlatformSide.AnswerOnWire` | src/security35114/platform.rs:292-322 | The answer to an accepted Authorization letter by letter: in Bidirection its own randoms, the ID of the device called for, the server's, the envelope and the signature |
| `PlatformSide.FailedCallsChangeNothing` | src/security35114/platform.rs:226-330 | A call that fails or replays leaves all sessions as they were, and none touches another device's |
| `PlatformSide.Platform.Vkek` | src/security35114/platform.rs:369-373 | The stored key, if any |
| `DeviceSide.Authenticator.Create` | src/security35114/authenticator.rs:113-121 | A device is made exactly if it has a device ID and a server ID, and starts without a challenge or key |
| `DeviceSide.Authenticator.AuthorizeWithChallenge` | src/security35114/authenticator.rs:154-182 | Answering records mode and both randoms and returns the header; on any failure nothing changes |
| `DeviceSide.Authenticator.VerifyOk` | src/security35114/authenticator.rs:187-226 | The key is taken if and only if a challenge was answered, the header parses, its envelope opens under the device's key, and, for a Bidirection answer, the platform's certificate is known, both randoms and both IDs are those of this handshake and sign2 verifies over them; the key is then the one in the envelope, and otherwise nothing changes |
| `Handshake.RunKeepsInv` | src/security35114/platform.rs:226-330 | Over every interleaving: calls in flight hold valid signatures over issued randoms, sessions hold the key and answer of their latest completion, platform signatures come from completions, accepted answers passed the device's checks |
| `HandshakeRuns.SessionHoldsSealedKey` | src/security35114/platform.rs:243-330 | Whenever a session caches an Authorization, its sign1 was valid for this server over an issued random, and the stored key is the one sealed in the cached answer, which parses back if and only if its values are printable |
| `HandshakeRuns.RetransmissionReplays` | src/security35114/platform.rs:242-244 | A call replays the cached answer if and only if the Authorization is byte-identical, and then changes nothing, whatever is drawn |
| `HandshakeRuns.UninterruptedCall` | src/security35114/platform.rs:226-330 | In every world a call with nothing in between does in one go what its two critical sections do as steps of the run |
| `HandshakeRuns.KeyChangesOnlyByCompletion` | src/security35114/platform.rs:205-215 | Over every run a key once set is never lost, and only a completion for that device changes it |
| `HandshakeRuns.AnnouncedCertificateStays` | src/security35114/platform.rs:212-214 | An announced certificate stays until another is announced |
| `HandshakeRuns.CompletionMayBeStale` | src/security35114/platform.rs:323-328 | A completion answers the pending challenge if and only if none was issued since the call read the session |
| `HandshakeRuns.AcceptedAgain` | src/security35114/platform.rs:242-254 | In every reachable world with distinct randoms an Authorization once accepted, completed or in flight, is accepted again if and only if its challenge is the pending one and it is not the cached one |
| `HandshakeRuns.CompletedAgain` | src/security35114/platform.rs:323-328 | The same for each completed exchange: storing it does not use up random1 |
| `HandshakeRuns.AlternatingAnswersDisagree` | src/security35114/platform.rs:226-330 | Two answers to one challenge sent in the order first, second, first, without overlap, complete the first twice; the answer to its first round seals a key the platform no longer holds |
| `HandshakeRuns.RacingCopiesDisagree` | src/security35114/platform.rs:226-330 | Two overlapping copies of one Authorization are both completed, and the first answer seals a key the platform no longer holds |
| `HandshakeDisagreement.RaceLeavesTwoKeys` | src/security35114/platform.rs:226-330 | A whole run from the start: one challenge, one answer, its REGISTER twice at once; the device that takes the first answer ends with the first key, the platform with the second |
| `HandshakeDisagreement.TurnsLeaveTwoKeys` | src/security35114/platform.rs:226-330 | A whole run from the start without overlapping calls: two answers to one challenge registered in turns; the device ends with the first key, the platform with the third |
| `HandshakeRuns.AnswerIsSigned` | src/security35114/authenticator.rs:200-226 | If a device takes a Bidirection answer, a completion of the platform signed the very octets the device checked; the two agree on device, randoms, envelope, certificate and key if and only if their randoms and device IDs have equal lengths |
| `HandshakeRuns.Agreement` | src/security35114/authenticator.rs:200-226 | If the randoms and IDs of all completions and of a Bidirection answer have fixed lengths, a device that takes it agrees: the platform produced it for that device ID in answer to exactly those randoms, sealing to that device's key the key the device now holds; what other devices take does not matter |
| `HandshakeRuns.UndrawnKeyIsUnidirection` | src/security35114/authenticator.rs:195-226 | A key that no completion drew came in a Unidirection answer, or in one whose signature a completion made for operands of other lengths; with fixed lengths, in a Unidirection answer |
| `HandshakeRuns.AnswerIsTaken` | src/security35114/authenticator.rs:187-226 | In every world, whatever challenge the device answered, it takes an answer if and only if the envelope opens under its key and a Bidirection answer is vouched for; it then holds the key inside, and no completion has to have drawn it |
| `HandshakeRuns.BothHoldTheKey` | src/security35114/platform.rs:276-329 | With wire strings the randoms themselves agree, random1 was issued for that device, and, keys being drawn apart, the platform holds the device's key if and only if no later completion for that device replaced it |
| `HandshakeRuns.HandshakeCompletes` | src/security35114/authenticator.rs:154-226 | From any world an undisturbed handshake between matched ends is possible in both modes and leaves both with the drawn key |
| `Note.ParseHeader` | src/security35114/integrity.rs:136-160 | The loop over the parts returns nonce and algorithm of the specification function |
| `Note.PrintedNoteParses` | src/security35114/integrity.rs:119-160 | A printed Note parses to the digest text it carries |
| `Note.PartsInEitherOrder` | src/security35114/integrity.rs:136-160 | The parts are read in either order, spaced, the nonce quoted or bare |
| `Note.PartIsMissing` | src/security35114/integrity.rs:136-160 | A Note without a nonce or without an algorithm is refused |
| `Note.NoteVerifies` | src/security35114/integrity.rs:164-188 | A built Note verifies if and only if both ends compute the same digest; with a collision-free hash, if and only if they hash the same octets |
| `Note.DigestCovers` | src/security35114/integrity.rs:88-113 | What is hashed, by position: method, From, To, Call-ID, Date, the key in its encoding, body |
| `Note.OtherPartIsRefused` | src/security35114/integrity.rs:88-188 | With a collision-free hash, a request that differs in any one of its six parts does not verify, and an equal one does |
| `Note.OtherRequestIsRefused` | src/security35114/integrity.rs:88-188 | The same for any request whose parts have equal lengths, all of them changed at once |
| `Note.ExchangedEndsAreRefused` | src/security35114/integrity.rs:88-188 | From and To of one length exchanged do not verify unless they are equal |
| `Note.OtherKeyIsRefused` | src/security35114/integrity.rs:88-113 | Among keys that enter the digest with one length only the sender's verifies, in either encoding |
| `Sip.ParseMessage` | src/sip.rs:192-257 | The parser's loop over lines, folded headers included, equals the specification function |
| `Sip.SerializeMessage` | src/sip.rs:269-282 | The serializer's loop equals the specification function |
| `Sip.SipRoundTrip` | src/sip.rs:192-282 | Serializing and parsing gives a message back if and only if its start line means its fields and its headers are trimmed, free of line feeds, with names without a colon; the body may be anything |
| `Sip.RequestLineIsRead` | src/sip.rs:212-220 | A request line of any of the ten methods, in any case, a target without a space and any version has exactly these fields |
| `Sip.StatusLines` | src/sip.rs:203-212 | A status line has its code up to 65535 and the version `SIP/2.0`, whatever the reason; a greater or unreadable code is refused |
| `Sip.UnknownMethodIsRefused` | src/sip.rs:50-65 | A request line whose first word spells none of the ten methods is refused |
| `Sip.ShortLineIsRefused` | src/sip.rs:212-216 | A request line of fewer than three parts is refused |
| `Sip.FoldedValueIsJoined` | src/sip.rs:229-246 | A value folded onto a second line is joined by one space if and only if that line holds no colon |
| `Sdp.ParseSession` | src/sip.rs:351-455 | The line loop equals the specification function |
| `Sdp.SerializeSession` | src/sip.rs:457-491 | The serializer's nested loops equal the specification function |
| `Sdp.SdpRoundTrip` | src/sip.rs:351-491 | A session comes back from its text if and only if it has no SSRC, origin and name are there, no value holds a line feed or ends in a space, its times are both there or both absent and not both zero, and each media has a type and a transport without a space, a 16-bit port, octets for payload types, attribute names without a colon, and, where no payload type follows it, a transport that is there and ends plain |
| `Sdp.SessionOnWire` | src/sip.rs:457-475 | The lines in front of the media letter by letter |
| `Sdp.MediaOnWire` | src/sip.rs:476-491 | A media line and those of its attributes letter by letter |
| `Sdp.LinesSetFields` | src/sip.rs:362-425 | A later origin, name, connection or bandwidth replaces the one before it, even behind a media line; an attribute in front of all media is dropped |
| `Sdp.PortBeforeSlash` | src/sip.rs:381-386 | The port is the number in front of a slash, 0 if it is none or too great |
| `Sdp.SsrcLineIsRead` | src/sip.rs:372-377 | A `y=` line of ten digits behind the text sets the SSRC and nothing else |
| `Sdp.SsrcIsNotPrinted` | src/sip.rs:457-491 | The serializer loses an SSRC |
| `Digest.ParseDigestAuth` | src/sip.rs:846-925 | The loop that eats the header equals the specification function, an unclosed quote being an index out of range |
| `DigestExact.DigestRoundTrip` | src/sip.rs:846-985 | The built header reads back field by field, with and without qop, an empty algorithm as MD5, if and only if realm and nonce are not empty, no quoted value holds a quote, and the algorithm is a token |
| `Digest.HeaderOnWire` | src/sip.rs:936-985 | The built header letter by letter, with and without qop |
| `Subscriptions.SubscriptionRegistry.constructor` | src/subscribe.rs:91-95 | The book starts empty |
| `Subscriptions.SubscriptionRegistry.Upsert` | src/subscribe.rs:100-122 | A subscription replaces the entry of its event |
| `Subscriptions.SubscriptionRegistry.Active` | src/subscribe.rs:126-152 | An expired entry leaves, a live one answers and counts its CSeq on |
| `Subscriptions.SubscriptionRegistry.IsActive` | src/subscribe.rs:154-164 | Whether the entry is live; an expired one leaves |
| `Subscriptions.SubscriptionRegistry.NextSn` | src/subscribe.rs:166-168 | The SN counts up modulo 2^32 |
| `Subscriptions.BookExpiresEagerly` | src/subscribe.rs:100-168 | Over every sequence of calls with a clock that does not go back, the book answers like one that drops entries the moment they expire |
| `Subscriptions.SubscriptionAnswers` | src/subscribe.rs:100-164 | Over every sequence of calls a subscription answers until its deadline, which is the whole seconds asked for, at least one, behind its request, and not from then on; CSeqs run base + 1, base + 2, … modulo 2^32, and the lifetime is what is left in whole seconds, at least 1 |
| `Subscriptions.NumbersCountUp` | src/subscribe.rs:166-168 | Each SN is one more than the SNs handed out before it, modulo 2^32, whatever is called in between |

## Left out

- PsRoundTrip.DemuxInvertsMux: the equivalence is stated for clean chunks, and with false video start codes by `PsFalsePackets.OnePacketRoundTrip` for splittable streams that fit one packet; streams of several packets that hold false codes, where a false packet may run on into the next header, are not characterised.
- PsRoundTrip.SafeUnitsRoundTrip: a sufficient condition, for streams of any length; `PsFalsePackets.OnePacketRoundTrip` gives the exact one for one packet.
- PsFalsePackets.OneVideoUnitRoundTrip: not for a last unit `00`, `00 00`, `00 00 00` or `00 00 01`, which `PsFalsePackets.OnePacketRoundTrip` includes.
- HandshakeRuns.Agreement: for Bidirection answers, since Unidirection carries no platform signature, and for fixed lengths of that answer and of the completions, which neither end checks; `HandshakeRuns.AnswerIsSigned` says what holds without them.
- DigestExact.DigestRoundTrip: the response and the client nonce are parameters; MD5 and SHA-256 are not modelled.
- TimeText.FormatThenParse: for offsets of 32 bits.
- `src/server.rs` is not part of this model: an RTP packet is the record of the arguments it is built from, and TCP framing is absent.
- parse_ps_pack_header reads another bit layout than the builder writes and is never called on the demux path.
- Wrap-around of the muxer's u64 counters, except `pts * 300`, which is taken modulo 2^64 as the pack header does.
- Bit-or of disjoint fields is written as a sum.
- Speeds that are not a number, overflow of the monotonic clock and the length of pacing sleeps; speeds are rationals and each turn is given the time it sees.
- Files and paths: a segment is its bytes, a sidecar its text, an unreadable segment is absent.
- Certificates, PEM, DER, base64, SM2 and SM3: keys are numbers, signing and sealing are ideal, the hash of a Note is a parameter. The Capability announcement appears only as the certificate it may announce.
- Text is a sequence of characters: byte lengths of non-ASCII text and upper-casing beyond ASCII are not modelled.
- parse_sip_date around the day count of src/sip.rs, which `Calendar` covers.
- Socket, task, TLS and XML code, charset transcoding, configuration and logging.
- PTZ commands and device IDs, which are finite tables.
