/** The note record shared by the file decoder, the file encoder and the
    playback scheduler, plus the few small types they all use. */
module Types {

  /** One octet of a byte stream (a `Uint8Array` element). */
  type byte = b: int | 0 <= b < 256

  /** The conventional Some/None datatype. */
  datatype Option<T> = None | Some(value: T)

  /** Note identifiers are opaque; the model uses natural numbers so that a
      producer can hand out fresh ones with a counter. */
  type NoteId = nat

  /** A note of the piano roll. Times are in beats (quarter notes). `muted`
      is not part of the wire format: it only suppresses playback and export. */
  datatype Note = Note(
    id: NoteId,
    pitch: int,
    startTime: real,
    duration: real,
    velocity: int,
    muted: bool)
  {
    /** The beat at which the note stops sounding. */
    function EndTime(): real {
      startTime + duration
    }
  }

  /** What a note sounds like, forgetting its identity and mute flag: the part
      of a note that survives a trip through a MIDI file. */
  datatype Sound = Sound(pitch: int, velocity: int, startTime: real, duration: real)

  function SoundOf(n: Note): Sound {
    Sound(n.pitch, n.velocity, n.startTime, n.duration)
  }

  function Sounds(notes: seq<Note>): (r: seq<Sound>)
    ensures |r| == |notes|
    ensures forall i :: 0 <= i < |notes| ==> r[i] == SoundOf(notes[i])
  {
    if |notes| == 0 then [] else Sounds(notes[..|notes| - 1]) + [SoundOf(notes[|notes| - 1])]
  }

  /** The notes that are not muted, in their original order. */
  function Unmuted(notes: seq<Note>): (r: seq<Note>)
    ensures |r| <= |notes|
    ensures forall n :: n in r <==> n in notes && !n.muted
  {
    if |notes| == 0 then []
    else
      var rest := Unmuted(notes[..|notes| - 1]);
      var last := notes[|notes| - 1];
      assert notes == notes[..|notes| - 1] + [last];
      if last.muted then rest else rest + [last]
  }

  /** Filtering twice is filtering once. */
  lemma {:induction false} UnmutedIdempotent(notes: seq<Note>)
    ensures Unmuted(Unmuted(notes)) == Unmuted(notes)
    decreases |notes|
  {
    if |notes| > 0 {
      var init := notes[..|notes| - 1];
      var last := notes[|notes| - 1];
      UnmutedIdempotent(init);
      if !last.muted {
        var u := Unmuted(init) + [last];
        assert u[..|u| - 1] == Unmuted(init);
      }
    }
  }

  /** The filter keeps every unmuted note as often as it occurs, and no
      muted one. */
  lemma {:induction false} UnmutedCounts(notes: seq<Note>)
    ensures forall n :: multiset(Unmuted(notes))[n] == if n.muted then 0 else multiset(notes)[n]
    decreases |notes|
  {
    if |notes| > 0 {
      var init := notes[..|notes| - 1];
      var last := notes[|notes| - 1];
      assert notes == init + [last];
      UnmutedCounts(init);
      assert multiset(notes) == multiset(init) + multiset{last};
    }
  }

  /** The filter keeps the order: filtering a concatenation filters each
      part. With `UnmutedSingle` this determines the filter completely. */
  lemma {:induction false} UnmutedAppend(a: seq<Note>, b: seq<Note>)
    ensures Unmuted(a + b) == Unmuted(a) + Unmuted(b)
    decreases |b|
  {
    if |b| == 0 {
      assert a + b == a;
    } else {
      var init := b[..|b| - 1];
      var last := b[|b| - 1];
      var kept := if last.muted then [] else [last];
      assert (a + b)[..|a + b| - 1] == a + init;
      assert (a + b)[|a + b| - 1] == last;
      assert Unmuted(a + b) == Unmuted(a + init) + kept;
      assert Unmuted(b) == Unmuted(init) + kept;
      UnmutedAppend(a, init);
      ConcatAssoc(Unmuted(a), Unmuted(init), kept);
    }
  }

  /** A single note is kept exactly when it is not muted. */
  lemma UnmutedSingle(n: Note)
    ensures Unmuted([n]) == if n.muted then [] else [n]
  {
    assert [n][..0] == [];
  }

  /** Concatenation regrouped, as one step a proof can cite. */
  lemma ConcatAssoc<X>(x: seq<X>, y: seq<X>, z: seq<X>)
    ensures x + (y + z) == (x + y) + z
  {
  }

  /** JavaScript's `Math.round` on the reals: halves round up. */
  function Round(x: real): (r: int)
    ensures x - 0.5 < r as real <= x + 0.5
  {
    (x + 0.5).Floor
  }
}
