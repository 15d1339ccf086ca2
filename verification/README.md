# MIDI piano roll: file codec and playback scheduler

A Dafny model of the core of a browser MIDI piano roll:

- **Import** (`parseMidiFile`): a lenient Standard MIDI File reader. It turns a byte
  stream into a flat list of notes. It handles the "MThd" header, track chunks found by
  scanning for "MTrk", variable-length delta-times, running status, and Note-On with
  velocity 0 acting as Note-Off. Meta and system-exclusive events are skipped.
- **Export** (`createMidiFile`, `writeVarLen`): a format-0 file with one track. It
  holds a Set Tempo event, a Note-On/Note-Off pair per unmuted note, sorted stably by
  tick, and End of Track.
- **Mute toggle** (`toggleNoteMute`).
- **Live messages**: the byte builders the player sends to a MIDI output port
  (`sendNoteOn` … `sendAllNotesOff`).
- **Playback scheduler**: the `tick` step of the player's timer, with looping and
  transposition by octaves, the all-notes-off sweep of `stopPlayback`, and `maxTime`.

Modules follow the program's structure:

| module | file | models |
|---|---|---|
| `Types` | `types.dfy` | The note record, bytes, `Math.round`, the unmuted filter. |
| `Vlq` | `vlq.dfy` | `readVarLen` and `writeVarLen`, and their round trip. |
| `Decoder` | `decoder.dfy` | `parseMidiFile`: header, chunk scan, event loop, messages. |
| `DecoderFacts` | `decoder_facts.dfy` | Properties relating several decoder steps, with worked files. |
| `Mute` | `mute.dfy` | `toggleNoteMute`. |
| `Messages` | `messages.dfy` | The `send*` byte builders. |
| `StableSort` | `sort.dfy` | The stable `events.sort` by tick, as an insertion sort. |
| `Encoder` | `encoder.dfy` | `createMidiFile`: events, schedule, track bytes, chunks. |
| `TrackDecoding` | `track_decoding.dfy` | What the decoder makes of a file the encoder wrote. |
| `RoundTrip` | `roundtrip.dfy` | Export then import returns the exported notes. |
| `Playback` | `playback.dfy` | `tick`, `stopPlayback`, `maxTime`. |

JavaScript numbers are modelled as follows:

- Times and beats are `real`.
- Integers are `int`, and bytes are `byte` (0..255).
- `x & 0x0F` and `x & 0x7F` are `x % 16` and `x % 128`. On integers these agree with
  the two's-complement masks for every sign.
- `>>` on the 24-bit and 32-bit fields is floor division.
- `Math.round` is `(x + 0.5).Floor`.
- The final `new Uint8Array(...)` reduces every number modulo 256.
- A read past the end of the buffer yields `undefined` in the source. Once the cursor
  has reached the end, no later read can emit a note, so the decoder stops there and
  keeps the notes emitted so far.
- A missing Note-On velocity is the one past-the-end read that still matters. It is
  `undefined`, which is not `> 0`, so the event closes the pending note, and the model
  does the same.

The round trip (`RoundTrip.RoundTrip`) is the central theorem. Take a roll whose
unmuted notes meet these conditions:

- start and duration lie on the 1/480-beat grid;
- each note starts at beat 0 or later, and ends before tick 2^28 (beat 2^28/480);
- each note lasts at least 0.1 beat;
- pitch is 0..127 and velocity 1..127;
- two notes of the same pitch neither overlap nor touch.

The roll also has fewer than 0x0300_0000 notes, which keeps the track length below
2^31. Export such a roll, then import the file. The result is exactly the unmuted notes'
(pitch, velocity, start, duration), each once. The comparison is as a multiset: the
decoder emits notes in Note-Off order, not in the roll's order.

## Model

| member | source | states |
|---|---|---|
| Types.Unmuted | lib/create-midi-file.ts:7 | The filter keeps exactly the notes that are not muted, and is never longer than its input. |
| Types.UnmutedCounts | lib/create-midi-file.ts:7 | Each unmuted note is kept as many times as it occurs; muted notes are dropped. |
| Types.UnmutedAppend | lib/create-midi-file.ts:7 | Filtering a concatenation filters each part, so the kept notes stay in their original order. |
| Types.UnmutedSingle | lib/create-midi-file.ts:7 | A single note is kept exactly when it is not muted. |
| Types.UnmutedIdempotent | lib/create-midi-file.ts:7 | Filtering out muted notes twice is the same as once. |
| Types.Round | lib/create-midi-file.ts:26-27 | `Math.round` lands within half a unit of its argument, with halves rounding up. |
| Vlq.ReadVarLen | app/page.tsx:227-235 | A successful read consumes at least one byte and stays inside the buffer. |
| Vlq.TerminatorSpec | app/page.tsx:230-233 | The do-while stops at the first byte from `pos` whose bit 7 is clear. It fails only when every remaining byte has bit 7 set. |
| Vlq.ReadVarLenSpec | app/page.tsx:227-235 | A read succeeds exactly when some byte from `pos` on has bit 7 clear. It then spans the continuation bytes up to and including that byte, and its value is the number their low seven bits spell. |
| Vlq.TerminatorIsFirst | app/page.tsx:230-233 | A clear byte preceded only by continuation bytes is where the read stops. |
| Vlq.WriteVarLen | lib/create-midi-file.ts:90-105 | The writer emits at least one byte. A negative or zero delta becomes the single byte 0. Below 2^28, at most four bytes are written. |
| Vlq.WriteVarLenSpec | lib/create-midi-file.ts:90-105 | Every byte but the last has bit 7 set, the last has it clear, and for a non-negative value the seven-bit groups spell the value. |
| Vlq.ReadWriteRoundTrip | lib/create-midi-file.ts:90-105 | Reading at the start of what `writeVarLen` wrote gives back the value and stops right after the written bytes. |
| Vlq.ReadSingleByte | app/page.tsx:230-234 | A byte with bit 7 clear is a complete quantity by itself. |
| Decoder.ReadHeader | app/page.tsx:217-224 | Without "MThd" the resolution is 480 and scanning starts at byte 0. With it, the resolution is the 16-bit field at bytes 12-13 and scanning starts at byte 14. |
| Decoder.Int32 | app/page.tsx:242 | The track length assembled from four shifted bytes is the 32-bit signed reading of the big-endian field, congruent to it modulo 2^32. |
| Decoder.CloseNote | app/page.tsx:274-285 | A pending note at the pitch is emitted with its own start and velocity and the next fresh id. Its duration is at least 0.1 beat, and it ends at the Note-Off's beat when that is 0.1 beat or more later. The pitch is then forgotten. Without a pending note nothing changes. |
| Decoder.NoteOn | app/page.tsx:265-286 | A positive velocity (re)opens the pending note at the pitch and emits nothing. Velocity 0 is exactly a Note-Off. |
| Decoder.ReadStatus | app/page.tsx:253-261 | A data byte in status position is left unread and the running status is used. A status byte is consumed and becomes the status. |
| Decoder.MessageType | app/page.tsx:263 | The message type is the status byte with its low four bits cleared. |
| Decoder.DecodeMessage | app/page.tsx:263-316 | Note-On and Note-Off act on the pending notes and consume two data bytes. 0xA0/0xB0/0xE0 skip two bytes, 0xC0/0xD0 skip one. Meta and SysEx events skip their variable-length payload. A Note-On whose velocity byte lies past the end closes the note, as an `undefined` velocity does. Any other status consumes nothing. A Note-On or Note-Off with no pitch byte stops the decode. Nothing but Note-On and Note-Off changes the notes. |
| Decoder.DecodeEvent | app/page.tsx:249-316 | One loop pass consumes at least one byte, never moves the tick back, only appends notes, and keeps the state valid. |
| Decoder.ExplicitStatusEvent | app/page.tsx:249-262 | After a delta-time, an explicit status byte is consumed, becomes the running status, and its message is decoded at the advanced tick's beat. |
| Decoder.RunningStatusEvent | app/page.tsx:253-257 | After a delta-time, a data byte reuses the running status and keeps it. |
| Decoder.DecodeTrack | app/page.tsx:248-317 | The event loop only appends valid notes, and a loop that finishes stops at or past the track end. |
| Decoder.ScanTracks | app/page.tsx:238-321 | Scanning for track chunks only appends valid notes to those already found. |
| Decoder.ParseMidiFile | app/page.tsx:209-324 | Every imported note is unmuted and carries a fresh id. It starts at a non-negative beat, lasts at least 0.1 beat, and has byte-sized pitch and positive velocity. |
| DecoderFacts.NoteOnZeroActsAsNoteOff | app/page.tsx:265-302 | A Note-On with velocity 0 and a Note-Off for the same pitch after the same delta consume the same bytes and have the same effect on any channels. |
| DecoderFacts.NoteOnZeroEvent | app/page.tsx:272-285 | A Note-On event with velocity 0 decodes to closing the pitch at its tick. |
| DecoderFacts.NoteOffEvent | app/page.tsx:287-302 | A Note-Off event decodes to closing the pitch at its tick, whatever its release velocity. |
| DecoderFacts.RunningStatusExample | app/page.tsx:253-261 | A headerless track whose Note-Off relies on running status imports one note of pitch 60, velocity 100, from beat 0 for 0.2 beat. |
| DecoderFacts.PendingCrossesTracksExample | app/page.tsx:211-246 | Pending notes are shared across tracks while the tick count restarts. A note opened in one track and closed in the next is clamped to 0.1 beat. |
| DecoderFacts.NoTrackNoNotes | app/page.tsx:318-320 | Bytes with no "MTrk" from `pos` on are skipped and add no note. |
| Mute.ToggleMute | app/page.tsx:95-100 | Every note with the id has its flag flipped. Every other note, the order and all other fields are unchanged. |
| Mute.ToggleTwice | app/page.tsx:95-100 | Toggling the same id twice restores the track. |
| Mute.ToggleCommutes | app/page.tsx:95-100 | Toggles of two ids commute. |
| Mute.ToggleUnmutedSounds | app/page.tsx:95-100 | A toggle changes the unmuted notes only in notes carrying the toggled id. |
| Messages.Low4 | hooks/use-midi.ts:81 | `& 0x0F` gives a value below 16, congruent to its argument modulo 16. |
| Messages.Low7 | hooks/use-midi.ts:82 | `& 0x7F` gives a data byte congruent to its argument modulo 128, and keeps a data byte as it is. |
| Messages.StatusByte | hooks/use-midi.ts:81 | The status of a channel message has bit 7 set. |
| Messages.ChannelOf | hooks/use-midi.ts:81 | A status byte addresses a channel 1..16. |
| Messages.NoteOnMessage | hooks/use-midi.ts:78-85 | `sendNoteOn` sends three bytes: a Note-On status for the channel (modulo 16), then pitch and velocity reduced to 0..127, each congruent to its argument modulo 128. |
| Messages.NoteOffMessage | hooks/use-midi.ts:87-94 | `sendNoteOff` sends three bytes: a Note-Off status for the channel (modulo 16), the pitch reduced to 0..127, and release velocity 0. |
| Messages.ProgramChangeMessage | hooks/use-midi.ts:96-103 | `sendProgramChange` sends two bytes: a Program Change status for the channel (modulo 16) and `program - 1` reduced to 0..127. |
| Messages.BankSelectMessage | hooks/use-midi.ts:105-113 | `sendBankSelect` sends three bytes: a Control Change status for the channel (modulo 16), controller 0, and `bank - 1` reduced to 0..127. |
| Messages.AllNotesOffMessage | hooks/use-midi.ts:115-122 | `sendAllNotesOff` sends `Bn 7B 00`: a Control Change status for the channel (modulo 16), controller 123, value 0. |
| Messages.ChannelRoundTrip | hooks/use-midi.ts:81 | The status keeps the message kind and addresses the requested channel: exactly for 1..16, modulo 16 otherwise. |
| Messages.BuildersWellFormed | hooks/use-midi.ts:78-122 | For any arguments, every builder produces a complete channel message of its own kind, with data bytes below 0x80. |
| Messages.DataRoundTrip | hooks/use-midi.ts:78-113 | In-range pitch and velocity pass through unchanged. Program and bank go out zero-based. |
| Messages.DecoderAgrees | hooks/use-midi.ts:78-122 | Fed to the file decoder, a live Note-On opens or closes the note, a Note-Off closes it, and the others change nothing. |
| StableSort.Insert | lib/create-midi-file.ts:43 | Inserting adds exactly the one element. |
| StableSort.InsertSorted | lib/create-midi-file.ts:43 | Inserting into a tick-sorted list keeps it sorted. |
| StableSort.SortByTick | lib/create-midi-file.ts:43 | The sorted events are a permutation of the input. |
| StableSort.SortSorted | lib/create-midi-file.ts:43 | The result is ordered by tick. |
| StableSort.SortStable | lib/create-midi-file.ts:43 | Events of equal tick keep their relative order, as `Array.prototype.sort` must. |
| StableSort.SortMap | lib/create-midi-file.ts:43 | Sorting commutes with rewriting the items and keeping the ticks. |
| Encoder.Low24BigEndian | lib/create-midi-file.ts:18-20 | The three tempo bytes are octets whose big-endian value is the microseconds per beat modulo 2^24. |
| Encoder.TempoEvent | lib/create-midi-file.ts:14-22 | The first event is a Set Tempo meta-event at tick 0 carrying `Math.round(60000000 / tempo)` in three bytes. |
| Encoder.NoteEventList | lib/create-midi-file.ts:25-40 | Note `i` contributes a Note-On at its rounded start tick and a Note-Off, velocity 0, at its rounded end tick, in positions 2i and 2i+1. |
| Encoder.BuildEvents | lib/create-midi-file.ts:6-40 | The unsorted events are the tempo event followed by the note events of the unmuted notes only. |
| Encoder.Schedule | lib/create-midi-file.ts:42-50 | The schedule is the stably sorted events followed by End of Track at the last event's tick. |
| Encoder.ScheduleSorted | lib/create-midi-file.ts:42-50 | The schedule's ticks never decrease. |
| Encoder.LengthField | lib/create-midi-file.ts:78-84 | The track length is written as four octets whose big-endian value is the length modulo 2^32. |
| Encoder.FileLayout | lib/create-midi-file.ts:69-77 | The file starts with the 14-byte header chunk (format 0, one track, 480 ticks per beat) and then "MTrk". |
| Encoder.EventsFileLayout | lib/create-midi-file.ts:78-85 | Bytes 18-21 hold the length of the track bytes that follow them. |
| Encoder.ScheduleInRange | lib/create-midi-file.ts:42-64 | When every unmuted note's ticks lie in [-2^30, 2^30), so does every scheduled tick. Every delta then stays in `writeVarLen`'s 32-bit range. |
| Encoder.IgnoresMuted | lib/create-midi-file.ts:7 | Muted notes have no influence: exporting the unmuted notes alone gives the same file. |
| Encoder.TempoFirst | lib/create-midi-file.ts:14-43 | With non-negative note ticks, the stable sort keeps the tempo event first. |
| Encoder.TrackDataAt | lib/create-midi-file.ts:52-64 | The serialisation loop writes event `i` as its delta from the previous event's tick (from `Encoder.Deltas`) followed by its message, between the bytes of the events before and after it. |
| Encoder.DeltasAddUp | lib/create-midi-file.ts:56-58 | The written deltas add up to each event's absolute tick. |
| Encoder.DeltasNonNegative | lib/create-midi-file.ts:56-58 | On a sorted schedule no delta is negative, so none is clamped to 0. |
| Encoder.TrackDataAppend | lib/create-midi-file.ts:52-64 | The track bytes of two event lists in a row are the first list's bytes followed by the second's, relative to the first's last tick. |
| Encoder.CreateMidiFile | lib/create-midi-file.ts:3-88 | The file is never shorter than the 22 bytes of the two chunk headers. |
| TrackDecoding.DecodeTrackData | app/page.tsx:248-317 | The event loop, over the bytes the encoder wrote for encodable events in tick order, consumes them exactly and applies each event's effect in order. |
| TrackDecoding.EncodedFileHeader | lib/create-midi-file.ts:66-85 | The decoder reads the written header as resolution 480 starting at byte 14, and sees one track chunk whose length field is exactly the track's size. |
| TrackDecoding.TrackDataLength | lib/create-midi-file.ts:52-64 | Each encodable event takes at most ten track bytes. |
| TrackDecoding.DecodeEncodedFile | lib/create-midi-file.ts:3-88 | Importing the file written for a sorted schedule of encodable events is folding their effects over the empty decoder state. |
| RoundTrip.NoteTicks | lib/create-midi-file.ts:26-27 | An exportable note gets ticks in [0, 2^28) at least 48 apart, and dividing them by 480 gives back its start and end exactly. |
| RoundTrip.SeparatedTicks | lib/create-midi-file.ts:26-27 | Notes that neither overlap nor touch keep strictly separated ticks. |
| RoundTrip.TaggedItems | lib/create-midi-file.ts:14-40 | Each event has a known origin: the tempo event, or the Note-On or Note-Off of note `i`. |
| RoundTrip.OnStep | app/page.tsx:270-271 | Reading a note's Note-On in tick order makes it pending with its own start and velocity. Every other open note stays pending. |
| RoundTrip.OffStep | app/page.tsx:287-302 | Reading a note's Note-Off in tick order emits a note with that note's pitch, velocity, start and duration. Every other open note stays pending. |
| RoundTrip.WalkAll | app/page.tsx:248-317 | Applying the sorted schedule's events emits every exported note exactly once. |
| RoundTrip.ScheduleEncodable | lib/create-midi-file.ts:14-50 | Every event scheduled for an exportable roll is a Note-On, a Note-Off, a Set Tempo or End of Track, with a tick in [0, 2^28). |
| RoundTrip.RoundTrip | lib/create-midi-file.ts:3-88 | Importing the export of an exportable roll reads the header as 480 ticks per beat. It gives back exactly the unmuted notes' pitch, velocity, start and duration, as a multiset. |
| Playback.Start | hooks/use-midi.ts:160-161 | Playback starts at beat 0 with nothing sounding. |
| Playback.MaxTime | hooks/use-midi.ts:158 | `maxTime` is the latest end beat of any note, muted ones included, or 0 for an empty roll. |
| Playback.Rem | hooks/use-midi.ts:172 | JavaScript `%` of a non-negative position by a positive length lies in [0, length), and leaves a position already below the length unchanged. The result is always a whole number of lengths away from the argument. |
| Playback.PositionAt | hooks/use-midi.ts:163-174 | The played position is elapsed seconds times beats per second. When looping it is wrapped into [0, maxTime) by taking off a whole number of `maxTime`s, and it is never beyond the unwrapped one. |
| Playback.AnchorAfter | hooks/use-midi.ts:171-174 | After a wrap the clock is re-anchored so that it stands at the wrapped position. |
| Playback.Sweep | hooks/use-midi.ts:217-220 | The sweep is a Note-Off for every pitch 0..127, in order. |
| Playback.StopPlayback | hooks/use-midi.ts:211-221 | The loop sends a Note-Off for every pitch 0..127, in order, whatever is sounding. |
| Playback.Tick | hooks/use-midi.ts:163-204 | A tick reports the position first and completes exactly when not looping and past `maxTime`. Its new anchor puts the clock at the reported position. |
| Playback.TickCalls | hooks/use-midi.ts:176-203 | A tick makes one position report, one call per voice change, and 129 calls more when it completes. |
| Playback.TickCallsShape | hooks/use-midi.ts:176-203 | The position is reported once, first. The voice changes' port calls follow in order. `onComplete` comes once, last, right after the sweep, and only when the tick completes. |
| Playback.PassFollowsVoices | hooks/use-midi.ts:178-197 | The changes of one pass obey the voice bookkeeping. A voice is started only when silent and released only with the pitch it was started at. The map left is the one they describe. |
| Playback.PassVoicesJustified | hooks/use-midi.ts:178-197 | Every start comes from an unmuted note whose span holds the position, with the transposed in-range pitch and the note's velocity. Every release comes from an unmuted note whose span the position has left. |
| Playback.PassPerNote | hooks/use-midi.ts:178-197 | With distinct ids, the pass leaves each note's voice as visiting that note alone would, and makes that visit's change. |
| Playback.PassStartsAndReleases | hooks/use-midi.ts:178-197 | With distinct ids, an unmuted note whose span holds the position, whose id is silent and whose transposed pitch is in 0..127 is started with that pitch. A sounding note outside its span is released with its recorded pitch. A sounding note inside its span and a muted note keep their voice. |
| Playback.PassKeepsId | hooks/use-midi.ts:178-197 | Notes with other ids leave a voice alone and make no change to it. |
| Playback.TickStartsAndReleases | hooks/use-midi.ts:163-204 | With distinct ids, a tick sends the Note-On of every due note and records its pitch, and sends the Note-Off of every sounding note whose span the position has left and forgets it. |
| Playback.PassIgnoresMuted | hooks/use-midi.ts:180 | Muted notes make no calls and change no voice. |
| Playback.PassKeepsActiveOk | hooks/use-midi.ts:184-196 | The pass keeps every sounding voice tied to an unmuted note and a pitch in 0..127. |
| Playback.PassAfterEnd | hooks/use-midi.ts:192-196 | Once every note has ended, the pass releases every voice of an unmuted note and starts none. |
| Playback.TickKeepsActiveOk | hooks/use-midi.ts:163-204 | A tick keeps the player consistent. |
| Playback.TickFollowsVoices | hooks/use-midi.ts:176-197 | The tick's port calls after the report are those of a voice-consistent list of changes, so every Note-Off matches a sounding voice. |
| Playback.CompletionSilences | hooks/use-midi.ts:199-203 | A completing tick leaves no voice sounding. |
| Playback.SweepCoversActive | hooks/use-midi.ts:217-220 | The sweep sends a Note-Off for the pitch of every sounding voice. |
| Playback.WrapAsWritten | hooks/use-midi.ts:171-172 | The wrap as written yields NaN exactly when looping past `maxTime == 0`, and otherwise a position in [0, maxTime). |
| Playback.GuardOnlyEmptyLoop | hooks/use-midi.ts:158-174 | Unless looping with `maxTime == 0`, the wrap as written gives exactly the position the guarded step plays at. |
| Playback.EmptyLoopIsNaN | hooks/use-midi.ts:158-172 | Looping an empty roll makes the very first tick's position NaN. |
| Playback.EmptyLoopCompletes | hooks/use-midi.ts:158-204 | With the guard, looping an empty roll reports a real position and completes at the first tick. |
| Playback.OneNoteExample | hooks/use-midi.ts:163-204 | A one-beat note at 120 BPM is started at 0.4 s. At 0.6 s it is released once, and playback completes with the sweep. |
| Playback.OctaveSkipExample | hooks/use-midi.ts:187-191 | A transposition below pitch 0 is skipped, not clamped: nothing is sent or recorded. |

## Left out

- Device handling is not modelled: requesting MIDI access, listing outputs, selecting
  one, and the "no output selected" early return. The builders give the bytes a
  selected port would receive.
- The React state, the file upload, the download and the UI are not modelled.
- Time enters only as the `now` argument of `Playback.Tick`. `performance.now`,
  `setInterval` and `clearInterval` are not modelled: the timer's clearing is the
  `completed` flag.
- `crypto.randomUUID` is replaced by a counter: the i-th imported note gets id i.
- Numbers are modelled as reals and unbounded integers, so IEEE rounding of `number`
  arithmetic is not modelled.
- Vlq.ReadVarLen: the 32-bit wrap of `value << 7` in a quantity of five or more bytes
  is not modelled; the value is unbounded. In the source such a quantity can come out
  negative. Used as a meta or SysEx length, it moves the cursor backwards (app/page.tsx:303-320),
  which can repeat events or loop; used as a delta-time, it can give negative beats. So
  the non-negative start that `Decoder.ParseMidiFile` promises holds for the model, not
  for the source on such files.
- Decoder.ParseMidiFile: requires a non-zero resolution field. With 0 the source
  divides by zero and computes infinite or NaN beats, which reals cannot express.
  The requires also excludes inputs for which the source returns no notes without
  dividing: a file of 4 to 13 bytes starting with "MThd", whose missing resolution
  bytes read as 0, and a resolution-0 file with no note events.
- The header's format and track-count fields are read by the source and never used.
  The model does not read them.
- Encoder.CreateMidiFile: requires a non-zero tempo, because the source divides by it.
  It also requires every unmuted note's ticks to lie in [-2^30, 2^30), so that each
  delta fits the 32-bit shifts of `writeVarLen`.
- Vlq.WriteVarLen: requires a value below 2^31, the range `>>=` keeps without
  wrapping.
- RoundTrip.RoundTrip: proved for rolls on the 1/480 grid, with notes that start at
  beat 0 or later, end before tick 2^28, last at least 0.1 beat, and have data-range
  pitch and positive data-range velocity, and with no two same-pitch notes overlapping
  or touching. It also assumes fewer than 0x0300_0000 notes, which keeps
  the track length below 2^31. Outside these conditions the source loses information:
  rounding, the 0.1-beat minimum, the last Note-On winning, masking by `Uint8Array`,
  and `writeVarLen` clamping a negative delta to 0, which moves a note that starts
  before beat 0.
  The model of each operation covers those inputs; only the theorem does not.
- Playback.PassStartsAndReleases, Playback.TickStartsAndReleases: stated for notes
  with distinct ids, as the roll's fresh ids are. With a repeated id the source's pass
  lets a later note undo what an earlier one did to the shared voice, and the model
  does the same.
- `onPositionUpdate` and `onComplete` are modelled as entries of the call list. Their
  effects on the UI are not modelled.

## Findings

| source | as written | input that shows it | evidently intended | confidence | as-written member | corrected member |
|---|---|---|---|---|---|---|
| hooks/use-midi.ts:158-173 | With looping on, the position is wrapped by `currentPosition % maxTime` once `currentPosition >= maxTime`. For a roll with no notes, or one whose notes all end at beat 0, `maxTime` is 0, so the first tick computes `x % 0`, which is NaN. The anchor becomes NaN too, so every later tick reports NaN and nothing ever completes. | Loop playback of an empty roll, at any `now` not before the start. | A roll that ends at beat 0 has nothing to loop. It should report a real position and finish, as with looping off. | not executed | Playback.EmptyLoopIsNaN | Playback.EmptyLoopCompletes |
