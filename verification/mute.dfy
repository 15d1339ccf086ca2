/** `toggleNoteMute`: flip the mute flag of the note with a given id. */
module Mute {
  import opened Types

  /** Every note whose id matches has its flag flipped; everything else,
      including the order and the other fields, is kept. */
  function ToggleMute(notes: seq<Note>, id: NoteId): (r: seq<Note>)
    ensures |r| == |notes|
    ensures forall i :: 0 <= i < |notes| && notes[i].id == id ==> r[i] == notes[i].(muted := !notes[i].muted)
    ensures forall i :: 0 <= i < |notes| && notes[i].id != id ==> r[i] == notes[i]
  {
    seq(|notes|, i requires 0 <= i < |notes| => if notes[i].id == id then notes[i].(muted := !notes[i].muted) else notes[i])
  }

  /** Toggling the same note twice restores the track. */
  lemma ToggleTwice(notes: seq<Note>, id: NoteId)
    ensures ToggleMute(ToggleMute(notes, id), id) == notes
  {
    var once := ToggleMute(notes, id);
    assert forall i :: 0 <= i < |notes| ==> once[i].id == notes[i].id;
  }

  /** Toggles of different notes commute. */
  lemma ToggleCommutes(notes: seq<Note>, a: NoteId, b: NoteId)
    ensures ToggleMute(ToggleMute(notes, a), b) == ToggleMute(ToggleMute(notes, b), a)
  {
    var ab := ToggleMute(ToggleMute(notes, a), b);
    var ba := ToggleMute(ToggleMute(notes, b), a);
    assert forall i :: 0 <= i < |notes| ==> ab[i] == ba[i];
  }

  /** A toggle changes what is exported and played only in notes carrying
      the toggled id: every other note is unmuted after the toggle exactly
      when it was before. */
  lemma ToggleUnmutedSounds(notes: seq<Note>, id: NoteId)
    ensures forall n :: n in Unmuted(ToggleMute(notes, id)) && n.id != id ==> n in Unmuted(notes)
    ensures forall n :: n in Unmuted(notes) && n.id != id ==> n in Unmuted(ToggleMute(notes, id))
  {
    var r := ToggleMute(notes, id);
    forall n | n in Unmuted(r) && n.id != id ensures n in Unmuted(notes) {
      var i :| 0 <= i < |r| && r[i] == n;
      assert notes[i].id == n.id;
    }
    forall n | n in Unmuted(notes) && n.id != id ensures n in Unmuted(r) {
      var i :| 0 <= i < |notes| && notes[i] == n;
      assert r[i] == n;
    }
  }
}
