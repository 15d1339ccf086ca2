/** `parseMidiFile`: a lenient Standard MIDI File reader that turns a byte
    stream into a flat list of notes.

    It follows "Header Chunks" and "Track Chunks" of Standard MIDI Files 1.0
    loosely: the header is recognised only by its signature, track chunks are
    found by scanning byte by byte for "MTrk", and inside a track every event
    is a delta-time followed by a channel, meta or system-exclusive message.
    Running status and "Note-On with velocity 0 is a Note-Off" come from the
    MIDI 1.0 Detailed Specification.

    Reads past the end of the buffer: the source gets `undefined`, and once
    its cursor has reached the end no further note can be emitted (every
    later read is `undefined` too). The model therefore stops decoding at the
    first read past the end and keeps the notes emitted so far. The single
    read whose `undefined` still has an effect, a missing Note-On velocity, is
    modelled as the source behaves: it is not greater than zero, so the event
    closes the pending note. */
module Decoder {
  import opened Types
  import opened Vlq

  /** Resolution assumed when the file has no "MThd" header. */
  const DefaultTicksPerBeat: nat := 480

  /** A byte as the 32-bit bitwise operators see it: past the end of the
      buffer the source reads `undefined`, which `<<` and `|` treat as 0. */
  function At(bytes: seq<byte>, i: nat): byte {
    if i < |bytes| then bytes[i] else 0
  }

  /** The stream starts with the header signature "MThd". */
  predicate HasHeader(bytes: seq<byte>) {
    |bytes| >= 4 && bytes[0] == 0x4D && bytes[1] == 0x54 && bytes[2] == 0x68 && bytes[3] == 0x64
  }

  /** The track signature "MTrk" starts at `pos`. */
  predicate IsTrackHeader(bytes: seq<byte>, pos: nat) {
    pos + 4 <= |bytes|
    && bytes[pos] == 0x4D && bytes[pos + 1] == 0x54 && bytes[pos + 2] == 0x72 && bytes[pos + 3] == 0x6B
  }

  /** What the header decides: the resolution and where track scanning starts. */
  datatype Header = Header(ticksPerBeat: nat, start: nat)

  /** Without "MThd" the resolution is the default and scanning starts at byte
      0; with it, the resolution is the big-endian 16-bit field at bytes 12-13
      (whatever the header's length field says) and scanning starts at 14. */
  function ReadHeader(bytes: seq<byte>): (h: Header)
    ensures !HasHeader(bytes) ==> h == Header(DefaultTicksPerBeat, 0)
    ensures HasHeader(bytes) ==> h.start == 14
    ensures HasHeader(bytes) && |bytes| >= 14 ==> h.ticksPerBeat == bytes[12] as int * 256 + bytes[13]
    ensures h.ticksPerBeat < 0x1_0000
  {
    if HasHeader(bytes) then Header(At(bytes, 12) as int * 256 + At(bytes, 13), 14)
    else Header(DefaultTicksPerBeat, 0)
  }

  /** The four-byte big-endian unsigned value at `pos`. */
  function BigEndian32(bytes: seq<byte>, pos: nat): (r: nat)
    requires pos + 4 <= |bytes|
    ensures r < 0x1_0000_0000
  {
    ((bytes[pos] as int * 256 + bytes[pos + 1]) * 256 + bytes[pos + 2]) * 256 + bytes[pos + 3]
  }

  /** The track length as the source computes it with `<< 24`: a signed
      32-bit number, negative when the top bit of the field is set. */
  function Int32(u: nat): (r: int)
    requires u < 0x1_0000_0000
    ensures -0x8000_0000 <= r < 0x8000_0000
    ensures (r - u) % 0x1_0000_0000 == 0
  {
    if u < 0x8000_0000 then u else u - 0x1_0000_0000
  }

  /** A note that has been switched on and not yet off. */
  datatype Pending = Pending(startTime: real, velocity: int)

  /** The decoder's accumulators: the notes emitted so far and the pending
      notes keyed by pitch. The pending map lives for the whole file, not
      for one track. */
  datatype DecodeState = DecodeState(notes: seq<Note>, pending: map<int, Pending>)

  /** Every emitted note is the `i`-th fresh one, unmuted and at least a
      tenth of a beat long; pending notes start at a non-negative beat with
      a positive velocity byte. */
  predicate Valid(st: DecodeState) {
    && (forall i :: 0 <= i < |st.notes| ==> EmittedNote(st.notes[i], i))
    && (forall p :: p in st.pending ==> PendingOk(p, st.pending[p]))
  }

  predicate EmittedNote(n: Note, i: nat) {
    n.id == i && !n.muted && n.duration >= 0.1 && n.startTime >= 0.0
    && 0 <= n.pitch < 256 && 0 < n.velocity < 256
  }

  predicate PendingOk(pitch: int, p: Pending) {
    0 <= pitch < 256 && p.startTime >= 0.0 && 0 < p.velocity < 256
  }

  /** The note-off path shared by Note-Off and Note-On with velocity 0: a
      pending note at `pitch` is emitted, with its own start and velocity and
      a duration of at least 0.1 beat, and forgotten; without one, nothing
      happens. */
  function CloseNote(st: DecodeState, pitch: int, time: real): (r: DecodeState)
    ensures pitch !in st.pending ==> r == st
    ensures pitch in st.pending ==>
      && r.pending == st.pending - {pitch}
      && |r.notes| == |st.notes| + 1
      && r.notes[..|st.notes|] == st.notes
      && r.notes[|st.notes|].id == |st.notes|
      && r.notes[|st.notes|].pitch == pitch
      && !r.notes[|st.notes|].muted
      && r.notes[|st.notes|].startTime == st.pending[pitch].startTime
      && r.notes[|st.notes|].velocity == st.pending[pitch].velocity
      && r.notes[|st.notes|].duration >= 0.1
      && (time - st.pending[pitch].startTime >= 0.1 ==> r.notes[|st.notes|].EndTime() == time)
      && (time - st.pending[pitch].startTime < 0.1 ==> r.notes[|st.notes|].duration == 0.1)
  {
    if pitch in st.pending then
      var start := st.pending[pitch];
      var length := time - start.startTime;
      var n := Note(|st.notes|, pitch, start.startTime, if length > 0.1 then length else 0.1, start.velocity, false);
      DecodeState(st.notes + [n], st.pending - {pitch})
    else st
  }

  /** A Note-On: with a positive velocity it (re)opens the pending note at
      `pitch`, so the last Note-On wins and nothing is emitted; with velocity
      0 it is a Note-Off. */
  function NoteOn(st: DecodeState, pitch: int, velocity: int, time: real): (r: DecodeState)
    ensures velocity > 0 ==> r.notes == st.notes && r.pending == st.pending[pitch := Pending(time, velocity)]
    ensures velocity <= 0 ==> r == CloseNote(st, pitch, time)
  {
    if velocity > 0 then st.(pending := st.pending[pitch := Pending(time, velocity)])
    else CloseNote(st, pitch, time)
  }

  /** The status in force and where its data bytes start: a data byte (bit 7
      clear) in status position is not consumed and the running status is
      reused; a status byte is consumed and becomes the running status. */
  datatype Status = Status(status: byte, next: nat)

  function ReadStatus(bytes: seq<byte>, pos: nat, running: byte): (r: Status)
    requires pos < |bytes|
    ensures bytes[pos] < 0x80 ==> r == Status(running, pos)
    ensures bytes[pos] >= 0x80 ==> r == Status(bytes[pos], pos + 1)
  {
    if bytes[pos] < 0x80 then Status(running, pos) else Status(bytes[pos], pos + 1)
  }

  /** `status & 0xF0`. */
  function MessageType(status: byte): (t: byte)
    ensures t % 16 == 0 && t <= status < t + 16
  {
    status / 16 * 16
  }

  /** Where the event loop stands inside a track. */
  datatype Cursor = Cursor(pos: nat, tick: nat, running: byte)

  /** The position after the data of a message whose status has been read
      (data starting at `p`), and its effect on the state, at beat `time`.
      `None` when a byte the message needs lies past the end of the buffer. */
  function DecodeMessage(bytes: seq<byte>, status: byte, p: nat, time: real, st: DecodeState)
    : (r: Option<(nat, DecodeState)>)
    ensures MessageType(status) == 0x90 && p + 1 < |bytes| ==>
      r == Some((p + 2, NoteOn(st, bytes[p], bytes[p + 1], time)))
    ensures MessageType(status) == 0x80 && p < |bytes| ==>
      r == Some((p + 2, CloseNote(st, bytes[p], time)))
    ensures MessageType(status) in {0xA0, 0xB0, 0xE0} ==> r == Some((p + 2, st))
    ensures MessageType(status) in {0xC0, 0xD0} ==> r == Some((p + 1, st))
    ensures status == 0xFF && p < |bytes| && ReadVarLen(bytes, p + 1).Some? ==>
      var len := ReadVarLen(bytes, p + 1).value;
      r == Some((len.next + len.value, st))
    ensures (status == 0xF0 || status == 0xF7) && ReadVarLen(bytes, p).Some? ==>
      var len := ReadVarLen(bytes, p).value;
      r == Some((len.next + len.value, st))
    ensures MessageType(status) == 0x90 && p + 1 == |bytes| ==>
      r == Some((p + 2, CloseNote(st, bytes[p], time)))
    ensures (MessageType(status) == 0x80 || MessageType(status) == 0x90) && p >= |bytes| ==> r.None?
    ensures MessageType(status) !in {0x80, 0x90, 0xA0, 0xB0, 0xC0, 0xD0, 0xE0} && status !in {0xF0, 0xF7, 0xFF} ==>
      r == Some((p, st))
    ensures r.Some? ==> r.value.0 >= p
    ensures r.Some? && MessageType(status) != 0x80 && MessageType(status) != 0x90 ==> r.value.1 == st
  {
    var kind := MessageType(status);
    if kind == 0x90 then
      if p >= |bytes| then None
      else
        // a missing velocity byte is `undefined`, which is not > 0
        var velocity := if p + 1 < |bytes| then bytes[p + 1] else 0;
        Some((p + 2, NoteOn(st, bytes[p], velocity, time)))
    else if kind == 0x80 then
      // the velocity byte is skipped without being read
      if p >= |bytes| then None else Some((p + 2, CloseNote(st, bytes[p], time)))
    else if kind == 0xA0 || kind == 0xB0 || kind == 0xE0 then Some((p + 2, st))
    else if kind == 0xC0 || kind == 0xD0 then Some((p + 1, st))
    else if status == 0xFF then
      if p >= |bytes| then None
      else match ReadVarLen(bytes, p + 1)
        case None => None
        case Some(len) => Some((len.next + len.value, st))
    else if status == 0xF0 || status == 0xF7 then
      match ReadVarLen(bytes, p)
      case None => None
      case Some(len) => Some((len.next + len.value, st))
    else Some((p, st))
  }

  /** One pass of the track's event loop: a delta-time, a status (possibly
      the running one) and the message. It consumes at least one byte. */
  function DecodeEvent(bytes: seq<byte>, ticksPerBeat: nat, cur: Cursor, st: DecodeState)
    : (r: Option<(Cursor, DecodeState)>)
    requires ticksPerBeat > 0
    ensures r.Some? ==> cur.pos < |bytes| && r.value.0.pos > cur.pos && r.value.0.tick >= cur.tick
    ensures r.Some? ==> |r.value.1.notes| >= |st.notes| && r.value.1.notes[..|st.notes|] == st.notes
    ensures r.Some? && Valid(st) ==> Valid(r.value.1)
  {
    match ReadVarLen(bytes, cur.pos)
    case None => None
    case Some(delta) =>
      if delta.next >= |bytes| then None
      else
        var tick := cur.tick + delta.value;
        var time := tick as real / ticksPerBeat as real;
        var s := ReadStatus(bytes, delta.next, cur.running);
        match DecodeMessage(bytes, s.status, s.next, time, st)
        case None => None
        case Some((next, st')) =>
          TimeNonNegative(tick, ticksPerBeat);
          Some((Cursor(next, tick, s.status), st'))
  }

  /** An event with an explicit status byte: after the delta-time, the
      status byte is consumed, becomes the running status, and its message
      is decoded at the advanced tick. */
  lemma ExplicitStatusEvent(bytes: seq<byte>, ticksPerBeat: nat, cur: Cursor, st: DecodeState,
                            delta: nat, s: nat, status: byte, next: nat, st': DecodeState)
    requires ticksPerBeat > 0
    requires ReadVarLen(bytes, cur.pos) == Some(VarLen(delta, s))
    requires s < |bytes| && bytes[s] == status && status >= 0x80
    requires DecodeMessage(bytes, status, s + 1, (cur.tick + delta) as real / ticksPerBeat as real, st)
          == Some((next, st'))
    ensures DecodeEvent(bytes, ticksPerBeat, cur, st) == Some((Cursor(next, cur.tick + delta, status), st'))
  {
    assert ReadStatus(bytes, s, cur.running) == Status(status, s + 1);
  }

  /** An event under running status: the data byte found in status position
      is not consumed, the running status is reused and stays in force. */
  lemma RunningStatusEvent(bytes: seq<byte>, ticksPerBeat: nat, cur: Cursor, st: DecodeState,
                           delta: nat, s: nat, next: nat, st': DecodeState)
    requires ticksPerBeat > 0
    requires ReadVarLen(bytes, cur.pos) == Some(VarLen(delta, s))
    requires s < |bytes| && bytes[s] < 0x80
    requires DecodeMessage(bytes, cur.running, s, (cur.tick + delta) as real / ticksPerBeat as real, st)
          == Some((next, st'))
    ensures DecodeEvent(bytes, ticksPerBeat, cur, st) == Some((Cursor(next, cur.tick + delta, cur.running), st'))
  {
    assert ReadStatus(bytes, s, cur.running) == Status(cur.running, s);
  }

  lemma TimeNonNegative(tick: nat, ticksPerBeat: nat)
    requires ticksPerBeat > 0
    ensures tick as real / ticksPerBeat as real >= 0.0
  {
  }

  /** How a track's event loop ended: at its end offset, or at a read past
      the end of the buffer, which ends the whole decode. */
  datatype TrackOutcome = Finished(pos: nat, st: DecodeState) | Truncated(st: DecodeState)

  /** The event loop `while (pos < trackEnd)` of one track. */
  function DecodeTrack(bytes: seq<byte>, ticksPerBeat: nat, cur: Cursor, trackEnd: int, st: DecodeState)
    : (r: TrackOutcome)
    requires ticksPerBeat > 0
    requires Valid(st)
    decreases |bytes| - cur.pos
    ensures Valid(r.st)
    ensures |r.st.notes| >= |st.notes| && r.st.notes[..|st.notes|] == st.notes
    ensures r.Finished? ==> r.pos >= cur.pos && r.pos >= trackEnd
  {
    if cur.pos >= trackEnd then Finished(cur.pos, st)
    else match DecodeEvent(bytes, ticksPerBeat, cur, st)
      case None => Truncated(st)
      case Some((cur', st')) => DecodeTrack(bytes, ticksPerBeat, cur', trackEnd, st')
  }

  /** The outer loop: skip one byte at a time until "MTrk", then decode that
      track (tick and running status start afresh, the pending map does not)
      and carry on after it. */
  function ScanTracks(bytes: seq<byte>, ticksPerBeat: nat, pos: nat, st: DecodeState): (r: DecodeState)
    requires ticksPerBeat > 0
    requires Valid(st)
    decreases |bytes| - pos
    ensures Valid(r)
    ensures |r.notes| >= |st.notes| && r.notes[..|st.notes|] == st.notes
  {
    if pos >= |bytes| then st
    else if IsTrackHeader(bytes, pos) then
      if pos + 8 > |bytes| then st
      else
        var start := pos + 8;
        var trackEnd := start + Int32(BigEndian32(bytes, pos + 4));
        match DecodeTrack(bytes, ticksPerBeat, Cursor(start, 0, 0), trackEnd, st)
        case Truncated(st') => st'
        case Finished(next, st') => ScanTracks(bytes, ticksPerBeat, next, st')
    else ScanTracks(bytes, ticksPerBeat, pos + 1, st)
  }

  /** `parseMidiFile`. A header whose resolution field is 0 is outside the
      model: the source would divide by zero. */
  function ParseMidiFile(bytes: seq<byte>): (notes: seq<Note>)
    requires ReadHeader(bytes).ticksPerBeat > 0
    ensures forall i :: 0 <= i < |notes| ==> notes[i].id == i && !notes[i].muted
    ensures forall i :: 0 <= i < |notes| ==> notes[i].duration >= 0.1 && notes[i].startTime >= 0.0
    ensures forall i :: 0 <= i < |notes| ==> 0 <= notes[i].pitch < 256 && 0 < notes[i].velocity < 256
  {
    var header := ReadHeader(bytes);
    var st := ScanTracks(bytes, header.ticksPerBeat, header.start, DecodeState([], map[]));
    assert forall i :: 0 <= i < |st.notes| ==> EmittedNote(st.notes[i], i);
    st.notes
  }
}
