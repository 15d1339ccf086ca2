/** Properties of the file decoder that relate several of its steps. */
module DecoderFacts {
  import opened Types
  import opened Vlq
  import opened Decoder

  /** A Note-On with velocity 0 and an explicit Note-Off, on any channels,
      after the same delta-time and for the same pitch, consume the same
      bytes and have the same effect: the same note emitted (or none), the
      same pending entry removed. Only the running status they leave differs. */
  lemma NoteOnZeroActsAsNoteOff(
    a: seq<byte>, b: seq<byte>, ticksPerBeat: nat, cur: Cursor, st: DecodeState,
    delta: nat, onChannel: nat, offChannel: nat, pitch: byte, offVelocity: byte)
    requires ticksPerBeat > 0
    requires delta < 0x8000_0000 && onChannel < 16 && offChannel < 16
    requires cur.pos + |WriteVarLen(delta)| + 3 <= |a|
    requires cur.pos + |WriteVarLen(delta)| + 3 <= |b|
    requires a[cur.pos..cur.pos + |WriteVarLen(delta)|] == WriteVarLen(delta)
    requires b[cur.pos..cur.pos + |WriteVarLen(delta)|] == WriteVarLen(delta)
    requires a[cur.pos + |WriteVarLen(delta)|..cur.pos + |WriteVarLen(delta)| + 3] == [0x90 + onChannel, pitch, 0]
    requires b[cur.pos + |WriteVarLen(delta)|..cur.pos + |WriteVarLen(delta)| + 3] == [0x80 + offChannel, pitch, offVelocity]
    ensures DecodeEvent(a, ticksPerBeat, cur, st).Some?
    ensures DecodeEvent(b, ticksPerBeat, cur, st).Some?
    ensures DecodeEvent(a, ticksPerBeat, cur, st).value.1 == DecodeEvent(b, ticksPerBeat, cur, st).value.1
    ensures DecodeEvent(a, ticksPerBeat, cur, st).value.0.pos == DecodeEvent(b, ticksPerBeat, cur, st).value.0.pos
    ensures DecodeEvent(a, ticksPerBeat, cur, st).value.0.tick == DecodeEvent(b, ticksPerBeat, cur, st).value.0.tick
  {
    NoteOnZeroEvent(a, ticksPerBeat, cur, st, delta, onChannel, pitch);
    NoteOffEvent(b, ticksPerBeat, cur, st, delta, offChannel, pitch, offVelocity);
  }

  lemma NoteOnZeroEvent(
    a: seq<byte>, ticksPerBeat: nat, cur: Cursor, st: DecodeState, delta: nat, channel: nat, pitch: byte)
    requires ticksPerBeat > 0
    requires delta < 0x8000_0000 && channel < 16
    requires cur.pos + |WriteVarLen(delta)| + 3 <= |a|
    requires a[cur.pos..cur.pos + |WriteVarLen(delta)|] == WriteVarLen(delta)
    requires a[cur.pos + |WriteVarLen(delta)|..cur.pos + |WriteVarLen(delta)| + 3] == [0x90 + channel, pitch, 0]
    ensures DecodeEvent(a, ticksPerBeat, cur, st)
         == Some((Cursor(cur.pos + |WriteVarLen(delta)| + 3, cur.tick + delta, 0x90 + channel),
                  CloseNote(st, pitch, (cur.tick + delta) as real / ticksPerBeat as real)))
  {
    var k := cur.pos + |WriteVarLen(delta)|;
    ReadWriteRoundTrip(a, cur.pos, delta);
    var m := a[k..k + 3];
    assert m[0] == a[k] && m[1] == a[k + 1] && m[2] == a[k + 2];
    var time := (cur.tick + delta) as real / ticksPerBeat as real;
    assert MessageType(0x90 + channel) == 0x90;
    assert DecodeMessage(a, 0x90 + channel, k + 1, time, st) == Some((k + 3, CloseNote(st, pitch, time)));
    ExplicitStatusEvent(a, ticksPerBeat, cur, st, delta, k, 0x90 + channel, k + 3, CloseNote(st, pitch, time));
  }

  lemma NoteOffEvent(
    b: seq<byte>, ticksPerBeat: nat, cur: Cursor, st: DecodeState, delta: nat, channel: nat,
    pitch: byte, velocity: byte)
    requires ticksPerBeat > 0
    requires delta < 0x8000_0000 && channel < 16
    requires cur.pos + |WriteVarLen(delta)| + 3 <= |b|
    requires b[cur.pos..cur.pos + |WriteVarLen(delta)|] == WriteVarLen(delta)
    requires b[cur.pos + |WriteVarLen(delta)|..cur.pos + |WriteVarLen(delta)| + 3] == [0x80 + channel, pitch, velocity]
    ensures DecodeEvent(b, ticksPerBeat, cur, st)
         == Some((Cursor(cur.pos + |WriteVarLen(delta)| + 3, cur.tick + delta, 0x80 + channel),
                  CloseNote(st, pitch, (cur.tick + delta) as real / ticksPerBeat as real)))
  {
    var k := cur.pos + |WriteVarLen(delta)|;
    ReadWriteRoundTrip(b, cur.pos, delta);
    var m := b[k..k + 3];
    assert m[0] == b[k] && m[1] == b[k + 1];
    var time := (cur.tick + delta) as real / ticksPerBeat as real;
    assert MessageType(0x80 + channel) == 0x80;
    assert DecodeMessage(b, 0x80 + channel, k + 1, time, st) == Some((k + 3, CloseNote(st, pitch, time)));
    ExplicitStatusEvent(b, ticksPerBeat, cur, st, delta, k, 0x80 + channel, k + 3, CloseNote(st, pitch, time));
  }

  /** A track without a file header, holding a Note-On and then a Note-Off
      that omits its status byte and relies on running status, decodes to
      exactly one note: pitch 60, velocity 100, from beat 0 for 96 ticks. */
  lemma RunningStatusExample(bytes: seq<byte>)
    requires bytes == [0x4D, 0x54, 0x72, 0x6B, 0, 0, 0, 7,
                       0x00, 0x90, 0x3C, 0x64,
                       0x60, 0x3C, 0x00]
    ensures ParseMidiFile(bytes) == [Note(0, 60, 0.0, 0.2, 100, false)]
  {
    assert !HasHeader(bytes) && IsTrackHeader(bytes, 0) && BigEndian32(bytes, 4) == 7 by {
      assert bytes[..8] == [0x4D, 0x54, 0x72, 0x6B, 0, 0, 0, 7];
    }
    assert bytes[8..] == [0x00, 0x90, 0x3C, 0x64, 0x60, 0x3C, 0x00];
    RunningStatusScan(bytes);
  }

  lemma RunningStatusScan(bytes: seq<byte>)
    requires |bytes| == 15 && IsTrackHeader(bytes, 0) && BigEndian32(bytes, 4) == 7
    requires bytes[8..] == [0x00, 0x90, 0x3C, 0x64, 0x60, 0x3C, 0x00]
    ensures ScanTracks(bytes, 480, 0, DecodeState([], map[]))
         == DecodeState([Note(0, 60, 0.0, 0.2, 100, false)], map[])
  {
    var empty := DecodeState([], map[]);
    var afterOn := DecodeState([], map[60 := Pending(0.0, 100)]);
    var closed := DecodeState([Note(0, 60, 0.0, 0.2, 100, false)], map[]);
    assert bytes[8] == 0 && bytes[9] == 0x90 && bytes[10] == 0x3C && bytes[11] == 0x64;
    assert bytes[12] == 0x60 && bytes[13] == 0x3C && bytes[14] == 0;
    assert DecodeEvent(bytes, 480, Cursor(8, 0, 0), empty) == Some((Cursor(12, 0, 0x90), afterOn)) by {
      ReadSingleByte(bytes, 8);
      assert ReadStatus(bytes, 9, 0) == Status(0x90, 10);
      assert DecodeMessage(bytes, 0x90, 10, 0.0, empty) == Some((12, afterOn));
    }
    assert DecodeEvent(bytes, 480, Cursor(12, 0, 0x90), afterOn) == Some((Cursor(15, 0x60, 0x90), closed)) by {
      ReadSingleByte(bytes, 12);
      assert ReadStatus(bytes, 13, 0x90) == Status(0x90, 13);
      assert DecodeMessage(bytes, 0x90, 13, 0.2, afterOn) == Some((15, closed));
    }
    assert DecodeTrack(bytes, 480, Cursor(12, 0, 0x90), 15, afterOn) == Finished(15, closed);
    assert DecodeTrack(bytes, 480, Cursor(8, 0, 0), 15, empty) == Finished(15, closed);
  }

  /** The pending map is shared by all tracks while the tick count starts
      afresh: in a file whose first track switches pitch 60 on after 96 ticks
      and whose second track switches it off after 96 ticks of its own, the
      note is closed at beat 0.2 of the second track's count, so its length
      is clamped to the 0.1-beat minimum. */
  lemma PendingCrossesTracksExample(bytes: seq<byte>)
    requires bytes == [0x4D, 0x54, 0x72, 0x6B, 0, 0, 0, 4,
                       0x60, 0x90, 0x3C, 0x64,
                       0x4D, 0x54, 0x72, 0x6B, 0, 0, 0, 4,
                       0x60, 0x80, 0x3C, 0x00]
    ensures ParseMidiFile(bytes) == [Note(0, 60, 0.2, 0.1, 100, false)]
  {
    TwoTrackLayout(bytes);
    TwoTrackScan(bytes);
  }

  lemma TwoTrackLayout(bytes: seq<byte>)
    requires bytes == [0x4D, 0x54, 0x72, 0x6B, 0, 0, 0, 4,
                       0x60, 0x90, 0x3C, 0x64,
                       0x4D, 0x54, 0x72, 0x6B, 0, 0, 0, 4,
                       0x60, 0x80, 0x3C, 0x00]
    ensures |bytes| == 24 && !HasHeader(bytes)
    ensures IsTrackHeader(bytes, 0) && BigEndian32(bytes, 4) == 4
    ensures IsTrackHeader(bytes, 12) && BigEndian32(bytes, 16) == 4
    ensures bytes[8] == 0x60 && bytes[9] == 0x90 && bytes[10] == 0x3C && bytes[11] == 0x64
    ensures bytes[20] == 0x60 && bytes[21] == 0x80 && bytes[22] == 0x3C
  {
    TwoTrackChunks(bytes);
    TwoTrackEvents(bytes);
  }

  lemma TwoTrackChunks(bytes: seq<byte>)
    requires bytes == [0x4D, 0x54, 0x72, 0x6B, 0, 0, 0, 4,
                       0x60, 0x90, 0x3C, 0x64,
                       0x4D, 0x54, 0x72, 0x6B, 0, 0, 0, 4,
                       0x60, 0x80, 0x3C, 0x00]
    ensures |bytes| == 24 && !HasHeader(bytes)
    ensures IsTrackHeader(bytes, 0) && BigEndian32(bytes, 4) == 4
    ensures IsTrackHeader(bytes, 12) && BigEndian32(bytes, 16) == 4
  {
  }

  lemma TwoTrackEvents(bytes: seq<byte>)
    requires bytes == [0x4D, 0x54, 0x72, 0x6B, 0, 0, 0, 4,
                       0x60, 0x90, 0x3C, 0x64,
                       0x4D, 0x54, 0x72, 0x6B, 0, 0, 0, 4,
                       0x60, 0x80, 0x3C, 0x00]
    ensures bytes[8] == 0x60 && bytes[9] == 0x90 && bytes[10] == 0x3C && bytes[11] == 0x64
    ensures bytes[20] == 0x60 && bytes[21] == 0x80 && bytes[22] == 0x3C
  {
  }

  lemma TwoTrackScan(bytes: seq<byte>)
    requires |bytes| == 24
    requires IsTrackHeader(bytes, 0) && BigEndian32(bytes, 4) == 4
    requires IsTrackHeader(bytes, 12) && BigEndian32(bytes, 16) == 4
    requires bytes[8] == 0x60 && bytes[9] == 0x90 && bytes[10] == 0x3C && bytes[11] == 0x64
    requires bytes[20] == 0x60 && bytes[21] == 0x80 && bytes[22] == 0x3C
    ensures ScanTracks(bytes, 480, 0, DecodeState([], map[]))
         == DecodeState([Note(0, 60, 0.2, 0.1, 100, false)], map[])
  {
    var empty := DecodeState([], map[]);
    var afterOn := DecodeState([], map[60 := Pending(0.2, 100)]);
    var closed := DecodeState([Note(0, 60, 0.2, 0.1, 100, false)], map[]);
    FirstTrackOpens(bytes);
    SecondTrackCloses(bytes);
    assert ScanTracks(bytes, 480, 24, closed) == closed;
    assert ScanTracks(bytes, 480, 12, afterOn) == closed;
  }

  lemma FirstTrackOpens(bytes: seq<byte>)
    requires |bytes| == 24 && bytes[8] == 0x60 && bytes[9] == 0x90 && bytes[10] == 0x3C && bytes[11] == 0x64
    ensures DecodeTrack(bytes, 480, Cursor(8, 0, 0), 12, DecodeState([], map[]))
         == Finished(12, DecodeState([], map[60 := Pending(0.2, 100)]))
  {
    var empty := DecodeState([], map[]);
    var afterOn := DecodeState([], map[60 := Pending(0.2, 100)]);
    ReadSingleByte(bytes, 8);
    assert ReadStatus(bytes, 9, 0) == Status(0x90, 10);
    assert DecodeMessage(bytes, 0x90, 10, 0.2, empty) == Some((12, afterOn));
    assert DecodeEvent(bytes, 480, Cursor(8, 0, 0), empty) == Some((Cursor(12, 0x60, 0x90), afterOn));
  }

  lemma SecondTrackCloses(bytes: seq<byte>)
    requires |bytes| == 24 && bytes[20] == 0x60 && bytes[21] == 0x80 && bytes[22] == 0x3C
    ensures DecodeTrack(bytes, 480, Cursor(20, 0, 0), 24, DecodeState([], map[60 := Pending(0.2, 100)]))
         == Finished(24, DecodeState([Note(0, 60, 0.2, 0.1, 100, false)], map[]))
  {
    var afterOn := DecodeState([], map[60 := Pending(0.2, 100)]);
    var closed := DecodeState([Note(0, 60, 0.2, 0.1, 100, false)], map[]);
    ReadSingleByte(bytes, 20);
    assert ReadStatus(bytes, 21, 0) == Status(0x80, 22);
    assert DecodeMessage(bytes, 0x80, 22, 0.2, afterOn) == Some((24, closed));
    assert DecodeEvent(bytes, 480, Cursor(20, 0, 0), afterOn) == Some((Cursor(24, 0x60, 0x80), closed));
  }

  /** Bytes outside a track chunk are skipped one at a time: a stream in
      which "MTrk" never starts at or after `pos` adds no note. */
  lemma {:induction false} NoTrackNoNotes(bytes: seq<byte>, ticksPerBeat: nat, pos: nat, st: DecodeState)
    requires ticksPerBeat > 0 && Valid(st)
    requires forall k :: pos <= k < |bytes| ==> !IsTrackHeader(bytes, k)
    ensures ScanTracks(bytes, ticksPerBeat, pos, st) == st
    decreases |bytes| - pos
  {
    if pos < |bytes| {
      NoTrackNoNotes(bytes, ticksPerBeat, pos + 1, st);
    }
  }
}
