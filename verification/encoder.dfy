/** `createMidiFile`: export the unmuted notes and the tempo as a Format 0
    Standard MIDI File at 480 ticks per quarter note, with a Set Tempo
    meta-event (`FF 51 03`) first and an End of Track meta-event (`FF 2F 00`)
    last ("Meta-Events" in Standard MIDI Files 1.0). */
module Encoder {
  import opened Types
  import opened Vlq
  import opened StableSort

  const TicksPerBeat: int := 480

  /** An event of the track before serialisation: its absolute tick and its
      message bytes, as numbers that are not yet reduced to octets. */
  type Event = Timed<seq<int>>

  /** The tick at which a beat falls: `Math.round(beat * ticksPerBeat)`. */
  function TickOf(beat: real): int {
    Round(beat * TicksPerBeat as real)
  }

  /** `Math.round(60000000 / tempo)`: microseconds per quarter note. */
  function MicrosecondsPerBeat(tempo: real): int
    requires tempo != 0.0
  {
    Round(60000000.0 / tempo)
  }

  /** `(x >> 8 * k) & 0xFF` for k = 2, 1, 0: an arithmetic shift is a floor
      division, and keeping the low eight bits is the Euclidean remainder,
      whatever the sign of `x`. */
  function Low24BigEndian(x: int): (r: seq<int>)
    ensures |r| == 3 && forall i :: 0 <= i < 3 ==> 0 <= r[i] < 256
    ensures (r[0] * 256 + r[1]) * 256 + r[2] == x % 0x100_0000
  {
    Digits24(x);
    [x / 256 / 256 % 256, x / 256 % 256, x % 256]
  }

  lemma Digits24(x: int)
    ensures (x / 256 / 256 % 256 * 256 + x / 256 % 256) * 256 + x % 256 == x % 0x100_0000
  {
    var q1 := x / 256;
    var q2 := q1 / 256;
    var q3 := q2 / 256;
    var v := (q2 % 256 * 256 + q1 % 256) * 256 + x % 256;
    assert x == q1 * 256 + x % 256;
    assert q1 == q2 * 256 + q1 % 256;
    assert q2 == q3 * 256 + q2 % 256;
    assert x == q3 * 0x100_0000 + v;
  }

  /** The Set Tempo meta-event at tick 0. */
  function TempoEvent(tempo: real): (e: Event)
    requires tempo != 0.0
    ensures e.tick == 0 && |e.item| == 6 && e.item[..3] == [0xFF, 0x51, 0x03]
    ensures e.item[3..] == Low24BigEndian(MicrosecondsPerBeat(tempo))
  {
    Timed(0, [0xFF, 0x51, 0x03] + Low24BigEndian(MicrosecondsPerBeat(tempo)))
  }

  /** A Note-On on channel 1 at the note's start and a Note-Off with release
      velocity 0 at its end. */
  function NoteEvents(n: Note): seq<Event> {
    [Timed(TickOf(n.startTime), [0x90, n.pitch, n.velocity]),
     Timed(TickOf(n.startTime + n.duration), [0x80, n.pitch, 0])]
  }

  /** The note events of `notes`, note by note. */
  function NoteEventList(notes: seq<Note>): (r: seq<Event>)
    ensures |r| == 2 * |notes|
    ensures forall i :: 0 <= i < |notes| ==>
      r[2 * i] == Timed(TickOf(notes[i].startTime), [0x90, notes[i].pitch, notes[i].velocity])
    ensures forall i :: 0 <= i < |notes| ==>
      r[2 * i + 1] == Timed(TickOf(notes[i].startTime + notes[i].duration), [0x80, notes[i].pitch, 0])
  {
    if |notes| == 0 then [] else NoteEventList(notes[..|notes| - 1]) + NoteEvents(notes[|notes| - 1])
  }

  /** The event list before sorting: the tempo event, then two events for
      every note that is not muted. */
  function BuildEvents(notes: seq<Note>, tempo: real): (r: seq<Event>)
    requires tempo != 0.0
    ensures |r| == 2 * |Unmuted(notes)| + 1
    ensures r[0] == TempoEvent(tempo)
    ensures r[1..] == NoteEventList(Unmuted(notes))
  {
    [TempoEvent(tempo)] + NoteEventList(Unmuted(notes))
  }

  /** The End of Track meta-event. */
  const EndOfTrack: seq<int> := [0xFF, 0x2F, 0x00]

  /** The sorted events followed by End of Track at the tick of the last of
      them (0 when there are none). */
  function Schedule(notes: seq<Note>, tempo: real): (r: seq<Event>)
    requires tempo != 0.0
    ensures |r| == 2 * |Unmuted(notes)| + 2
    ensures r[..|r| - 1] == SortByTick(BuildEvents(notes, tempo))
    ensures r[|r| - 1] == Timed(r[|r| - 2].tick, EndOfTrack)
  {
    var sorted := SortByTick(BuildEvents(notes, tempo));
    var lastTick := if |sorted| > 0 then sorted[|sorted| - 1].tick else 0;
    assert (sorted + [Timed(lastTick, EndOfTrack)])[..|sorted|] == sorted;
    sorted + [Timed(lastTick, EndOfTrack)]
  }

  /** The schedule is in tick order, End of Track included. */
  lemma ScheduleSorted(notes: seq<Note>, tempo: real)
    requires tempo != 0.0
    ensures Sorted(Schedule(notes, tempo))
  {
    var r := Schedule(notes, tempo);
    var sorted := r[..|r| - 1];
    SortSorted(BuildEvents(notes, tempo));
    assert forall i :: 0 <= i < |sorted| ==> sorted[i].tick <= r[|r| - 1].tick;
    assert r == sorted + [r[|r| - 1]];
    SnocSorted(sorted, r[|r| - 1]);
  }

  /** Deltas stay below 2^31, the range of the 32-bit shifts of
      `writeVarLen`, when every tick lies in [-2^30, 2^30). */
  predicate TickInRange(t: int) {
    -0x4000_0000 <= t < 0x4000_0000
  }

  predicate EventsInRange(events: seq<Event>) {
    forall e :: e in events ==> TickInRange(e.tick)
  }

  /** Every unmuted note starts and ends at a tick in that range. */
  predicate NotesInRange(notes: seq<Note>) {
    forall n :: n in notes && !n.muted ==>
      TickInRange(TickOf(n.startTime)) && TickInRange(TickOf(n.startTime + n.duration))
  }

  /** The track bytes: each event's delta from the previous event's tick
      (from `prev` for the first), as a variable-length quantity, then its
      message bytes. */
  function TrackData(events: seq<Event>, prev: int): (r: seq<int>)
    requires EventsInRange(events) && TickInRange(prev)
    decreases |events|
  {
    if |events| == 0 then []
    else WriteVarLen(events[0].tick - prev) + events[0].item + TrackData(events[1..], events[0].tick)
  }

  /** `new Uint8Array(midiData)`: every number is reduced modulo 256. */
  function ToBytes(xs: seq<int>): (r: seq<byte>)
    ensures |r| == |xs|
    ensures forall i :: 0 <= i < |xs| && 0 <= xs[i] < 256 ==> r[i] == xs[i]
  {
    seq(|xs|, i requires 0 <= i < |xs| => xs[i] % 256)
  }

  /** Every number is kept modulo 256. */
  lemma ToBytesModulo(xs: seq<int>, i: nat)
    requires i < |xs|
    ensures ToBytes(xs)[i] as int % 256 == xs[i] % 256
  {
  }

  /** The header chunk: "MThd", length 6, format 0, one track, and the
      division as a big-endian 16-bit number. */
  function HeaderChunk(): (r: seq<int>)
    ensures r == [0x4D, 0x54, 0x68, 0x64, 0, 0, 0, 6, 0, 0, 0, 1, 0x01, 0xE0]
  {
    [0x4D, 0x54, 0x68, 0x64, 0, 0, 0, 6, 0, 0, 0, 1, (TicksPerBeat / 256) % 256, TicksPerBeat % 256]
  }

  /** The track chunk's signature "MTrk". */
  const TrackSignature: seq<int> := [0x4D, 0x54, 0x72, 0x6B]

  /** `(length >> 24) & 0xFF` and so on: the length modulo 2^32, big-endian. */
  function LengthField(length: nat): (r: seq<int>)
    ensures |r| == 4 && forall i :: 0 <= i < 4 ==> 0 <= r[i] < 256
    ensures ((r[0] * 256 + r[1]) * 256 + r[2]) * 256 + r[3] == length % 0x1_0000_0000
  {
    Digits32(length);
    [length / 256 / 256 / 256 % 256, length / 256 / 256 % 256, length / 256 % 256, length % 256]
  }

  lemma Digits32(x: nat)
    ensures ((x / 256 / 256 / 256 % 256 * 256 + x / 256 / 256 % 256) * 256 + x / 256 % 256) * 256 + x % 256
         == x % 0x1_0000_0000
  {
    Digits24(x / 256);
    ModSplit(x);
  }

  lemma ModSplit(x: int)
    ensures x % 0x1_0000_0000 == x / 256 % 0x100_0000 * 256 + x % 256
  {
    var q1 := x / 256;
    var k := q1 / 0x100_0000;
    var m := q1 % 0x100_0000;
    assert x == q1 * 256 + x % 256;
    assert q1 == k * 0x100_0000 + m;
    assert x == k * 0x1_0000_0000 + (m * 256 + x % 256);
    assert 0 <= m * 256 + x % 256 < 0x1_0000_0000;
  }

  /** The whole file around the track bytes, before the reduction to octets. */
  function FileData(track: seq<int>): seq<int> {
    HeaderChunk() + TrackSignature + LengthField(|track|) + track
  }

  /** The octets of the file that holds a given schedule. */
  function FileOf(events: seq<Event>): (r: seq<byte>)
    requires EventsInRange(events)
    ensures |r| >= 22
  {
    ToBytes(FileData(TrackData(events, 0)))
  }

  /** `createMidiFile(notes, tempo)`. */
  function CreateMidiFile(notes: seq<Note>, tempo: real): (r: seq<byte>)
    requires tempo != 0.0
    requires NotesInRange(notes)
    ensures |r| >= 22
  {
    ScheduleInRange(notes, tempo);
    FileOf(Schedule(notes, tempo))
  }

  /** The file starts with the header chunk, the track signature and the
      track length, big-endian and modulo 2^32. */
  lemma FileLayout(notes: seq<Note>, tempo: real)
    requires tempo != 0.0
    requires NotesInRange(notes)
    ensures CreateMidiFile(notes, tempo)[..14] == [0x4D, 0x54, 0x68, 0x64, 0, 0, 0, 6, 0, 0, 0, 1, 0x01, 0xE0]
    ensures CreateMidiFile(notes, tempo)[14..18] == [0x4D, 0x54, 0x72, 0x6B]
  {
    ScheduleInRange(notes, tempo);
    FileDataLayout(TrackData(Schedule(notes, tempo), 0));
  }

  /** The length field of the file written for a schedule counts the bytes
      that follow it (modulo 2^32, as `LengthField` states). */
  lemma EventsFileLayout(events: seq<Event>)
    requires EventsInRange(events)
    ensures FileOf(events)[18..22] == LengthField(|FileOf(events)| - 22)
  {
    FileDataLayout(TrackData(events, 0));
  }

  lemma FileDataLayout(track: seq<int>)
    ensures var r := ToBytes(FileData(track));
      && |r| == |track| + 22
      && r[..14] == [0x4D, 0x54, 0x68, 0x64, 0, 0, 0, 6, 0, 0, 0, 1, 0x01, 0xE0]
      && r[14..18] == [0x4D, 0x54, 0x72, 0x6B]
      && r[18..22] == LengthField(|r| - 22)
  {
    var data := FileData(track);
    var len := LengthField(|track|);
    assert data[..22] == HeaderChunk() + TrackSignature + len;
    ToBytesPrefix(data, 22);
    var r := ToBytes(data);
    assert r[18..22] == r[..22][18..22];
  }

  /** Numbers that already are octets are kept by the reduction. */
  lemma ToBytesPrefix(xs: seq<int>, n: nat)
    requires n <= |xs|
    requires forall i :: 0 <= i < n ==> 0 <= xs[i] < 256
    ensures ToBytes(xs)[..n] == xs[..n]
  {
  }

  /** Every scheduled event, End of Track included, has a tick in range. */
  lemma ScheduleInRange(notes: seq<Note>, tempo: real)
    requires tempo != 0.0
    requires NotesInRange(notes)
    ensures EventsInRange(Schedule(notes, tempo))
  {
    var built := BuildEvents(notes, tempo);
    BuiltInRange(notes, tempo);
    SortInRange(built);
  }

  lemma BuiltInRange(notes: seq<Note>, tempo: real)
    requires tempo != 0.0
    requires NotesInRange(notes)
    ensures EventsInRange(BuildEvents(notes, tempo))
  {
    var built := BuildEvents(notes, tempo);
    var u := Unmuted(notes);
    forall i | 0 <= i < |built| ensures TickInRange(built[i].tick) {
      if i > 0 {
        var events := NoteEventList(u);
        var k := (i - 1) / 2;
        assert built[i] == events[i - 1];
        assert u[k] in u;
        if i - 1 == 2 * k {
          assert events[2 * k].tick == TickOf(u[k].startTime);
        } else {
          assert i - 1 == 2 * k + 1;
          assert events[2 * k + 1].tick == TickOf(u[k].startTime + u[k].duration);
        }
      }
    }
  }

  lemma SortInRange(events: seq<Event>)
    requires EventsInRange(events)
    ensures EventsInRange(SortByTick(events))
  {
    var sorted := SortByTick(events);
    forall i | 0 <= i < |sorted| ensures TickInRange(sorted[i].tick) {
      assert sorted[i] in multiset(events);
    }
  }

  /** Muted notes leave no trace in the file: exporting only the unmuted
      notes gives the same bytes. */
  lemma IgnoresMuted(notes: seq<Note>, tempo: real)
    requires tempo != 0.0
    requires NotesInRange(notes)
    ensures NotesInRange(Unmuted(notes))
    ensures CreateMidiFile(Unmuted(notes), tempo) == CreateMidiFile(notes, tempo)
  {
    var u := Unmuted(notes);
    assert NotesInRange(u);
    UnmutedIdempotent(notes);
    assert BuildEvents(u, tempo) == BuildEvents(notes, tempo);
    assert Schedule(u, tempo) == Schedule(notes, tempo);
    ScheduleInRange(notes, tempo);
    assert CreateMidiFile(u, tempo) == FileOf(Schedule(notes, tempo));
  }

  /** When no note is scheduled before tick 0, the tempo event comes first:
      its tick is the smallest and the stable sort keeps it ahead of the
      other events at tick 0. Its delta is then 0. */
  lemma TempoFirst(notes: seq<Note>, tempo: real)
    requires tempo != 0.0
    requires forall n :: n in notes && !n.muted ==> TickOf(n.startTime) >= 0 && TickOf(n.startTime + n.duration) >= 0
    ensures Schedule(notes, tempo)[0] == TempoEvent(tempo)
  {
    var built := BuildEvents(notes, tempo);
    var sorted := SortByTick(built);
    assert Schedule(notes, tempo)[0] == sorted[0];
    BuiltNonNegative(notes, tempo);
    SortSorted(built);
    assert sorted[0] in multiset(built);
    assert built[0] in multiset(sorted);
    var k :| 0 <= k < |sorted| && sorted[k] == built[0];
    assert sorted[0].tick == 0;
    SortStable(built, 0);
    FirstAtTick(sorted, 0);
    FirstAtTick(built, 0);
  }

  lemma BuiltNonNegative(notes: seq<Note>, tempo: real)
    requires tempo != 0.0
    requires forall n :: n in notes && !n.muted ==> TickOf(n.startTime) >= 0 && TickOf(n.startTime + n.duration) >= 0
    ensures forall i :: 0 <= i < |BuildEvents(notes, tempo)| ==> BuildEvents(notes, tempo)[i].tick >= 0
  {
    var built := BuildEvents(notes, tempo);
    var u := Unmuted(notes);
    forall i | 0 <= i < |built| ensures built[i].tick >= 0 {
      if i > 0 {
        var events := NoteEventList(u);
        var k := (i - 1) / 2;
        assert built[i] == events[i - 1];
        assert u[k] in u;
        if i - 1 == 2 * k {
          assert events[2 * k].tick == TickOf(u[k].startTime);
        } else {
          assert i - 1 == 2 * k + 1;
          assert events[2 * k + 1].tick == TickOf(u[k].startTime + u[k].duration);
        }
      }
    }
  }

  /** `deltaTick = event.tick - prevTick`, event by event. */
  function Deltas(events: seq<Event>, prev: int): (r: seq<int>)
    ensures |r| == |events|
  {
    seq(|events|, i requires 0 <= i < |events| => events[i].tick - (if i == 0 then prev else events[i - 1].tick))
  }

  function Sum(xs: seq<int>): int {
    if |xs| == 0 then 0 else Sum(xs[..|xs| - 1]) + xs[|xs| - 1]
  }

  /** The deltas add up to the ticks, and on a sorted schedule that starts
      no earlier than `prev` none is negative. */
  lemma {:induction false} DeltasAddUp(events: seq<Event>, prev: int, i: nat)
    requires i < |events|
    ensures prev + Sum(Deltas(events, prev)[..i + 1]) == events[i].tick
  {
    var d := Deltas(events, prev);
    if i > 0 {
      DeltasAddUp(events, prev, i - 1);
      assert d[..i + 1][..i] == d[..i];
    }
  }

  lemma DeltasNonNegative(events: seq<Event>, prev: int)
    requires Sorted(events)
    requires |events| > 0 ==> events[0].tick >= prev
    ensures forall i :: 0 <= i < |events| ==> Deltas(events, prev)[i] >= 0
  {
  }

  /** Serialising a schedule in two parts: the second part's first delta is
      taken from the last tick of the first. */
  lemma {:induction false} TrackDataAppend(a: seq<Event>, b: seq<Event>, prev: int)
    requires EventsInRange(a + b) && TickInRange(prev)
    ensures EventsInRange(a) && EventsInRange(b)
    ensures TrackData(a + b, prev)
         == TrackData(a, prev) + TrackData(b, if |a| == 0 then prev else a[|a| - 1].tick)
    decreases |a|
  {
    if |a| > 0 {
      var head := WriteVarLen(a[0].tick - prev) + a[0].item;
      var rest := TrackData(b, a[|a| - 1].tick);
      var middle := TrackData(a[1..], a[0].tick);
      ConcatTail(a, b);
      TrackDataAppend(a[1..], b, a[0].tick);
      assert (if |a[1..]| == 0 then a[0].tick else a[1..][|a[1..]| - 1].tick) == a[|a| - 1].tick;
      assert TrackData(a[1..] + b, a[0].tick) == middle + rest;
      TrackDataCons(a + b, prev);
      assert TrackData(a + b, prev) == head + (middle + rest);
      TrackDataCons(a, prev);
      assert TrackData(a, prev) == head + middle;
      ConcatAssoc(head, middle, rest);
    } else {
      assert a + b == b;
    }
  }

  /** The serialisation loop writes, for event `i`, exactly the delta
      `Deltas` gives it: the track bytes are those of the events before it,
      then its delta and message, then the bytes of the events after it. */
  lemma TrackDataAt(events: seq<Event>, prev: int, i: nat)
    requires EventsInRange(events) && TickInRange(prev) && i < |events|
    ensures EventsInRange(events[..i]) && EventsInRange(events[i + 1..])
    ensures Deltas(events, prev)[i] < 0x8000_0000
    ensures TrackData(events, prev)
         == TrackData(events[..i], prev) + (WriteVarLen(Deltas(events, prev)[i]) + events[i].item)
            + TrackData(events[i + 1..], events[i].tick)
  {
    var before := events[..i];
    var from := events[i..];
    assert before + from == events;
    var q := if |before| == 0 then prev else before[|before| - 1].tick;
    assert q == (if i == 0 then prev else events[i - 1].tick);
    TrackDataAppend(before, from, prev);
    var d := Deltas(events, prev)[i];
    assert d == events[i].tick - q;
    TrackDataFrom(events, q, i, d);
    Regroup(TrackData(events, prev), TrackData(before, prev), TrackData(from, q),
            WriteVarLen(d) + events[i].item, TrackData(events[i + 1..], events[i].tick));
  }

  /** The serialisation of a suffix starts with its first event. */
  lemma TrackDataFrom(events: seq<Event>, q: int, i: nat, d: int)
    requires EventsInRange(events) && TickInRange(q) && i < |events| && d == events[i].tick - q
    ensures EventsInRange(events[i..]) && EventsInRange(events[i + 1..]) && d < 0x8000_0000
    ensures TrackData(events[i..], q)
         == (WriteVarLen(d) + events[i].item) + TrackData(events[i + 1..], events[i].tick)
  {
    var from := events[i..];
    assert from[0] == events[i] && from[1..] == events[i + 1..];
    TrackDataCons(from, q);
  }

  lemma Regroup(whole: seq<int>, a: seq<int>, b: seq<int>, p: seq<int>, r: seq<int>)
    requires whole == a + b && b == p + r
    ensures whole == a + p + r
  {
  }

  /** One step of the serialisation loop. */
  lemma TrackDataCons(events: seq<Event>, prev: int)
    requires |events| > 0 && EventsInRange(events) && TickInRange(prev)
    ensures EventsInRange(events[1..])
    ensures TrackData(events, prev)
         == WriteVarLen(events[0].tick - prev) + events[0].item + TrackData(events[1..], events[0].tick)
  {
  }

  lemma ConcatTail(a: seq<Event>, b: seq<Event>)
    requires |a| > 0
    ensures (a + b)[0] == a[0] && (a + b)[1..] == a[1..] + b
  {
  }
}
