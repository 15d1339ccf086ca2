/** What the decoder makes of a track the encoder wrote: every event of a
    sorted schedule is read back in one pass of the event loop, so decoding
    the file is folding the events' effects over the empty state. */
module TrackDecoding {
  import opened Types
  import opened Vlq
  import opened StableSort
  import opened Decoder
  import opened Encoder

  /** The events the encoder writes, with ticks in [0, 2^28) so that every
      delta fits the four bytes of a variable-length quantity: a Note-On with
      a data pitch and a positive data velocity, a Note-Off with release
      velocity 0, End of Track, and Set Tempo. */
  predicate Encodable(e: Event) {
    && 0 <= e.tick < 0x1000_0000
    && (|| IsNoteOn(e.item) || IsNoteOff(e.item) || IsEndOfTrack(e.item) || IsSetTempo(e.item))
  }

  predicate IsEndOfTrack(item: seq<int>) {
    |item| == 3 && item[0] == 0xFF && item[1] == 0x2F && item[2] == 0
  }

  predicate IsNoteOn(item: seq<int>) {
    |item| == 3 && item[0] == 0x90 && 0 <= item[1] < 0x80 && 0 < item[2] < 0x80
  }

  predicate IsNoteOff(item: seq<int>) {
    |item| == 3 && item[0] == 0x80 && 0 <= item[1] < 0x80 && item[2] == 0
  }

  predicate IsSetTempo(item: seq<int>) {
    |item| == 6 && item[0] == 0xFF && item[1] == 0x51 && item[2] == 0x03
    && 0 <= item[3] < 256 && 0 <= item[4] < 256 && 0 <= item[5] < 256
  }

  /** The effect of one event on the decoder's state, at the beat of its
      tick: Note-On opens, Note-Off closes, meta-events change nothing. */
  function Effect(st: DecodeState, e: Event): (r: DecodeState)
    ensures IsEndOfTrack(e.item) || IsSetTempo(e.item) ==> r == st
  {
    var time := e.tick as real / 480.0;
    if |e.item| == 3 && e.item[0] == 0x90 then NoteOn(st, e.item[1], e.item[2], time)
    else if |e.item| == 3 && e.item[0] == 0x80 then CloseNote(st, e.item[1], time)
    else st
  }

  /** The effects of a list of events, first to last. */
  function Fold(st: DecodeState, events: seq<Event>): DecodeState
    decreases |events|
  {
    if |events| == 0 then st else Fold(Effect(st, events[0]), events[1..])
  }

  lemma {:induction false} FoldSnoc(st: DecodeState, events: seq<Event>, e: Event)
    ensures Fold(st, events + [e]) == Effect(Fold(st, events), e)
    decreases |events|
  {
    if |events| == 0 {
      assert ([] + [e])[1..] == [];
    } else {
      assert (events + [e])[1..] == events[1..] + [e];
      FoldSnoc(Effect(st, events[0]), events[1..], e);
    }
  }

  lemma EncodableInRange(events: seq<Event>)
    requires forall e :: e in events ==> Encodable(e)
    ensures EventsInRange(events)
  {
  }

  /** The reduction to octets distributes over concatenation. */
  lemma ToBytesAppend(a: seq<int>, b: seq<int>)
    ensures ToBytes(a + b) == ToBytes(a) + ToBytes(b)
  {
  }

  /** The message part of an encoded event, its status byte at `s`. */
  lemma EncodedMessage(f: seq<byte>, s: nat, e: Event, st: DecodeState, time: real)
    requires Encodable(e) && time == e.tick as real / 480.0
    requires s + |e.item| <= |f|
    requires forall j :: 0 <= j < |e.item| ==> f[s + j] == e.item[j]
    ensures f[s] == e.item[0] && f[s] >= 0x80
    ensures DecodeMessage(f, e.item[0], s + 1, time, st) == Some((s + |e.item|, Effect(st, e)))
  {
    assert f[s] == e.item[0];
    if IsNoteOn(e.item) {
      assert f[s + 1] == e.item[1] && f[s + 2] == e.item[2];
    } else if IsNoteOff(e.item) {
      assert f[s + 1] == e.item[1];
    } else {
      MetaMessage(f, s, e.item, time, st);
    }
  }

  /** Set Tempo and End of Track: a type byte, a one-byte length, and that
      many data bytes are skipped. */
  lemma MetaMessage(f: seq<byte>, s: nat, item: seq<int>, time: real, st: DecodeState)
    requires IsEndOfTrack(item) || IsSetTempo(item)
    requires s + |item| <= |f|
    requires forall j :: 0 <= j < |item| ==> f[s + j] == item[j]
    ensures DecodeMessage(f, 0xFF, s + 1, time, st) == Some((s + |item|, st))
  {
    assert f[s + 2] == item[2];
    ReadSingleByte(f, s + 2);
  }

  /** The bytes at `k` are an event followed by the rest of a track. */
  lemma SplitEvent(f: seq<byte>, k: nat, w: seq<byte>, item: seq<int>, rest: seq<int>)
    requires k <= |f| && f[k..] == w + item + rest
    ensures k + |w| + |item| <= |f|
    ensures f[k..k + |w|] == w
    ensures f[k + |w|..k + |w| + |item|] == item
    ensures f[k + |w| + |item|..] == rest
  {
    var tail := f[k..];
    assert tail[..|w|] == w;
    assert f[k..k + |w|] == tail[..|w|];
    assert f[k + |w|..k + |w| + |item|] == tail[|w|..|w| + |item|];
    assert f[k + |w| + |item|..] == tail[|w| + |item|..];
  }

  /** Numbers that are octets already. */
  predicate Octets(xs: seq<int>) {
    forall i :: 0 <= i < |xs| ==> 0 <= xs[i] < 256
  }

  /** On octets the reduction modulo 256 changes nothing. */
  lemma ToBytesOctets(xs: seq<int>)
    requires Octets(xs)
    ensures ToBytes(xs) == xs
  {
  }

  /** The track data of encodable events is made of octets. */
  lemma {:induction false} TrackDataOctets(events: seq<Event>, prev: int)
    requires forall e :: e in events ==> Encodable(e)
    requires EventsInRange(events) && TickInRange(prev)
    ensures Octets(TrackData(events, prev))
    decreases |events|
  {
    if |events| > 0 {
      var e := events[0];
      assert Encodable(e);
      TrackDataCons(events, prev);
      EncodableOctets(e);
      assert forall x :: x in events[1..] ==> x in events;
      TrackDataOctets(events[1..], e.tick);
      OctetsAppend(WriteVarLen(e.tick - prev), e.item, TrackData(events[1..], e.tick));
    }
  }

  lemma OctetsAppend(w: seq<byte>, item: seq<int>, rest: seq<int>)
    requires Octets(item) && Octets(rest)
    ensures Octets(w + item + rest)
  {
  }

  /** The items of encodable events are octets. */
  lemma EncodableOctets(e: Event)
    requires Encodable(e)
    ensures Octets(e.item)
    ensures 0x80 <= e.item[0] < 256
  {
  }

  /** One step of the event loop: an event that decodes moves the loop on
      to the cursor and state it produces. */
  lemma TrackStep(f: seq<byte>, cur: Cursor, st: DecodeState, cur': Cursor, st': DecodeState)
    requires Valid(st)
    requires cur.pos < |f|
    requires DecodeEvent(f, 480, cur, st) == Some((cur', st'))
    ensures Valid(st')
    ensures DecodeTrack(f, 480, cur, |f|, st) == DecodeTrack(f, 480, cur', |f|, st')
  {
  }

  /** The ticks never decrease, starting from `prev`. */
  predicate Chain(events: seq<Event>, prev: int)
    decreases |events|
  {
    |events| == 0 || (prev <= events[0].tick && Chain(events[1..], events[0].tick))
  }

  /** A sorted list whose first tick is at least `prev` is a chain from it. */
  lemma {:induction false} SortedChain(events: seq<Event>, prev: int)
    requires Sorted(events) && (|events| > 0 ==> prev <= events[0].tick)
    ensures Chain(events, prev)
    decreases |events|
  {
    if |events| > 0 {
      var rest := events[1..];
      assert Sorted(rest) by {
        forall i, j | 0 <= i < j < |rest| ensures rest[i].tick <= rest[j].tick {
          assert rest[i] == events[i + 1] && rest[j] == events[j + 1];
        }
      }
      if |rest| > 0 {
        assert rest[0] == events[1];
      }
      SortedChain(rest, events[0].tick);
    }
  }

  /** Every event is encodable, taken head first. */
  predicate AllEncodable(events: seq<Event>)
    decreases |events|
  {
    |events| == 0 || (Encodable(events[0]) && AllEncodable(events[1..]))
  }

  lemma {:induction false} EncodableEach(events: seq<Event>)
    requires forall e :: e in events ==> Encodable(e)
    ensures AllEncodable(events)
    decreases |events|
  {
    if |events| > 0 {
      assert events[0] in events;
      assert forall x :: x in events[1..] ==> x in events;
      EncodableEach(events[1..]);
    }
  }

  /** The first event of serialised track data decodes to its effect, and
      leaves the cursor where the data of the remaining events starts. */
  lemma DecodeNextEvent(f: seq<byte>, k: nat, events: seq<Event>, prev: nat, running: byte,
                        st: DecodeState) returns (next: nat)
    requires |events| > 0 && Encodable(events[0]) && prev <= events[0].tick
    requires prev < 0x1000_0000 && EventsInRange(events)
    requires k <= |f| && f[k..] == TrackData(events, prev)
    ensures EventsInRange(events[1..])
    ensures next <= |f| && f[next..] == TrackData(events[1..], events[0].tick)
    ensures DecodeEvent(f, 480, Cursor(k, prev, running), st)
         == Some((Cursor(next, events[0].tick, events[0].item[0]), Effect(st, events[0])))
  {
    var e := events[0];
    TrackDataCons(events, prev);
    next := DecodeFirstEvent(f, k, e, prev, WriteVarLen(e.tick - prev), TrackData(events[1..], e.tick), running, st);
  }

  /** The same for an event written as its delta `w` and its message, in
      front of any bytes `rest`. */
  lemma DecodeFirstEvent(f: seq<byte>, k: nat, e: Event, prev: nat, w: seq<byte>, rest: seq<int>,
                         running: byte, st: DecodeState) returns (next: nat)
    requires Encodable(e) && prev <= e.tick
    requires w == WriteVarLen(e.tick - prev)
    requires k <= |f| && f[k..] == w + e.item + rest
    ensures next <= |f| && f[next..] == rest
    ensures DecodeEvent(f, 480, Cursor(k, prev, running), st)
         == Some((Cursor(next, e.tick, e.item[0]), Effect(st, e)))
  {
    SplitEvent(f, k, w, e.item, rest);
    ReadWriteRoundTrip(f, k, e.tick - prev);
    EncodedEventStep(f, k, e, prev, running, st, k + |w|);
    next := k + |w| + |e.item|;
  }

  /** A located event decodes to its effect at its own tick, and the cursor
      moves past its message with its status byte as the running status. */
  lemma EncodedEventStep(f: seq<byte>, k: nat, e: Event, prev: nat, running: byte,
                         st: DecodeState, s: nat)
    requires Encodable(e) && prev <= e.tick
    requires ReadVarLen(f, k) == Some(VarLen(e.tick - prev, s))
    requires s + |e.item| <= |f|
    requires f[s..s + |e.item|] == e.item
    ensures DecodeEvent(f, 480, Cursor(k, prev, running), st)
         == Some((Cursor(s + |e.item|, e.tick, e.item[0]), Effect(st, e)))
  {
    var time := (prev + (e.tick - prev)) as real / 480 as real;
    assert prev + (e.tick - prev) == e.tick;
    forall j | 0 <= j < |e.item| ensures f[s + j] == e.item[j] {
      assert f[s..s + |e.item|][j] == f[s + j];
    }
    EncodedMessage(f, s, e, st, time);
    ExplicitStatusEvent(f, 480, Cursor(k, prev, running), st, e.tick - prev, s, e.item[0], s + |e.item|, Effect(st, e));
  }

  /** The event loop over the serialised data of encodable events in tick
      order, running to the end of the buffer, consumes it exactly and
      applies every event's effect in order. */
  lemma {:induction false} DecodeTrackData(
    f: seq<byte>, k: nat, events: seq<Event>, prev: nat, running: byte, st: DecodeState)
    requires Valid(st)
    requires AllEncodable(events) && Chain(events, prev)
    requires prev < 0x1000_0000 && EventsInRange(events)
    requires k <= |f| && f[k..] == TrackData(events, prev)
    ensures DecodeTrack(f, 480, Cursor(k, prev, running), |f|, st) == Finished(|f|, Fold(st, events))
    decreases |events|
  {
    if |events| == 0 {
      assert |f[k..]| == 0;
    } else {
      var e := events[0];
      var next := DecodeNextEvent(f, k, events, prev, running, st);
      TrackStep(f, Cursor(k, prev, running), st, Cursor(next, e.tick, e.item[0]), Effect(st, e));
      DecodeTrackData(f, next, events[1..], e.tick, e.item[0], Effect(st, e));
    }
  }

  /** Encoded tracks are short: at most ten bytes per event (four of delta,
      six of message). */
  lemma {:induction false} TrackDataLength(events: seq<Event>, prev: int)
    requires forall e :: e in events ==> Encodable(e)
    requires 0 <= prev < 0x1000_0000
    requires EventsInRange(events)
    ensures |TrackData(events, prev)| <= 10 * |events|
    decreases |events|
  {
    if |events| > 0 {
      var e := events[0];
      assert Encodable(e);
      TrackDataCons(events, prev);
      assert |WriteVarLen(e.tick - prev)| <= 4;
      assert |e.item| <= 6;
      assert forall x :: x in events[1..] ==> x in events;
      TrackDataLength(events[1..], e.tick);
    }
  }

  /** The file the encoder writes for an encodable sorted schedule decodes,
      under the header's own resolution of 480, to the fold of the
      schedule's effects. */
  lemma DecodeEncodedFile(events: seq<Event>)
    requires forall e :: e in events ==> Encodable(e)
    requires Sorted(events)
    requires |events| < 0x0800_0000
    ensures EventsInRange(events)
    ensures ReadHeader(FileOf(events)) == Header(480, 14)
    ensures ParseMidiFile(FileOf(events)) == Fold(DecodeState([], map[]), events).notes
  {
    EncodableInRange(events);
    var track := TrackData(events, 0);
    var f := FileOf(events);
    TrackDataLength(events, 0);
    EncodedFileHeader(track);
    var empty := DecodeState([], map[]);
    TrackDataOctets(events, 0);
    ToBytesOctets(track);
    if |events| > 0 {
      assert Encodable(events[0]);
    }
    SortedChain(events, 0);
    EncodableEach(events);
    DecodeTrackData(f, 22, events, 0, 0, empty);
    ScanOneTrack(f, empty, Fold(empty, events));
  }

  /** A file whose only chunk after the header is a track that fills it and
      decodes to its end: scanning the file is decoding that track. */
  lemma ScanOneTrack(f: seq<byte>, st: DecodeState, st': DecodeState)
    requires Valid(st)
    requires 22 <= |f| && IsTrackHeader(f, 14) && Int32(BigEndian32(f, 18)) == |f| - 22
    requires DecodeTrack(f, 480, Cursor(22, 0, 0), |f|, st) == Finished(|f|, st')
    ensures ScanTracks(f, 480, 14, st) == st'
  {
    assert 14 + 8 + Int32(BigEndian32(f, 14 + 4)) == |f|;
  }

  /** The chunk headers of an encoded file, as the decoder reads them. */
  lemma EncodedFileHeader(track: seq<int>)
    requires |track| < 0x8000_0000
    ensures var f := ToBytes(FileData(track));
      && |f| == 22 + |track|
      && HasHeader(f) && ReadHeader(f) == Header(480, 14)
      && IsTrackHeader(f, 14)
      && Int32(BigEndian32(f, 18)) == |track|
      && f[22..] == ToBytes(track)
  {
    var f := ToBytes(FileData(track));
    FileDataLayout(track);
    FileSuffix(track);
    var head := f[..14];
    assert head == [0x4D, 0x54, 0x68, 0x64, 0, 0, 0, 6, 0, 0, 0, 1, 0x01, 0xE0];
    assert f[0] == head[0] && f[1] == head[1] && f[2] == head[2] && f[3] == head[3];
    assert f[12] == head[12] && f[13] == head[13];
    var sig := f[14..18];
    assert sig == [0x4D, 0x54, 0x72, 0x6B];
    assert f[14] == sig[0] && f[15] == sig[1] && f[16] == sig[2] && f[17] == sig[3];
    var len := f[18..22];
    assert len == LengthField(|track|);
    assert f[18] == len[0] && f[19] == len[1] && f[20] == len[2] && f[21] == len[3];
  }

  lemma FileSuffix(track: seq<int>)
    ensures |ToBytes(FileData(track))| == 22 + |track|
    ensures ToBytes(FileData(track))[22..] == ToBytes(track)
  {
    var head := HeaderChunk() + TrackSignature + LengthField(|track|);
    assert FileData(track) == head + track;
    ToBytesAppend(head, track);
  }
}
