/** The playback scheduler: the `tick` step that the player's periodic timer
    runs, and the all-notes-off sweep of `stopPlayback`.

    The step is a pure function of the notes, the transport settings, the
    player's state and the current time `now` (in seconds); the calls it
    would make into the output port and the UI come back as a sequence of
    `Output`s, in the order they are made. */
module Playback {
  import opened Types

  /** The settings `startPlayback` is called with. `tempo` is in beats per
      minute, `octave` a transposition in whole octaves. */
  datatype Transport = Transport(tempo: real, channel: int, octave: int, loop: bool)

  /** A call made by the step: `onPositionUpdate`, `sendNoteOn`,
      `sendNoteOff` or `onComplete`. */
  datatype Output =
    | Position(beat: real)
    | NoteOn(pitch: int, velocity: int, channel: int)
    | NoteOff(pitch: int, channel: int)
    | Complete

  /** What the step knows between two ticks: the wall-clock time at which
      beat 0 was (`startTimeRef`), and the sounding voices, each note id
      mapped to the transposed pitch it was started with (`activeNotes`). */
  datatype Player = Player(anchor: real, active: map<NoteId, int>)

  /** `startPlayback`: beat 0 is now and nothing sounds. */
  function Start(now: real): (p: Player)
    ensures p.active == map[]
    ensures (now - p.anchor) == 0.0
  {
    Player(now, map[])
  }

  /** The beat at which the last note ends, or 0 when there is none. Muted
      notes count too. */
  function MaxTime(notes: seq<Note>): (r: real)
    ensures r >= 0.0
    ensures forall n :: n in notes ==> n.EndTime() <= r
    ensures r == 0.0 || exists n :: n in notes && n.EndTime() == r
  {
    if |notes| == 0 then 0.0
    else
      var rest := MaxTime(notes[..|notes| - 1]);
      var last := notes[|notes| - 1];
      assert notes == notes[..|notes| - 1] + [last];
      if last.EndTime() > rest then last.EndTime() else rest
  }

  /** JavaScript's `%` on numbers: the remainder of a division truncated
      toward zero. */
  function Rem(x: real, m: real): (r: real)
    requires m != 0.0
    ensures x >= 0.0 && m > 0.0 ==> 0.0 <= r < m
    ensures 0.0 <= x < m ==> r == x
    ensures ((x - r) / m).Floor as real == (x - r) / m
  {
    var q := x / m;
    var t := if q >= 0.0 then q.Floor else -((-q).Floor);
    FloorBounds(x, m);
    WholeMultiple(x, m, t);
    x - m * t as real
  }

  /** Taking `t` whole lengths off `x` leaves `x` a whole number of lengths
      away. */
  lemma WholeMultiple(x: real, m: real, t: int)
    requires m != 0.0
    ensures ((x - (x - m * t as real)) / m).Floor as real == (x - (x - m * t as real)) / m
  {
    var k := m * t as real;
    assert x - (x - k) == k;
    assert k / m == t as real;
  }

  /** The remainder of a non-negative number by a positive one, computed
      with the floor of the quotient, lies in [0, m). */
  lemma FloorBounds(x: real, m: real)
    ensures x >= 0.0 && m > 0.0 ==> 0.0 <= x - m * (x / m).Floor as real < m
    ensures 0.0 <= x < m ==> (x / m).Floor == 0
  {
    if x < 0.0 || m <= 0.0 { return; }
    var q := x / m;
    var f := q.Floor as real;
    assert f <= q < f + 1.0;
    assert x == m * q;
    MulMonotone(m, f, q);
    MulMonotone(m, q, f + 1.0);
    assert m * f <= x;
    calc {
      x;
    ==
      m * q;
    <
      m * (f + 1.0);
    ==
      m * f + m;
    }
    assert 0.0 <= x - m * f < m;
    if x < m {
      MulMonotone(m, q, 1.0);
      assert q < 1.0;
    }
  }

  lemma MulMonotone(m: real, a: real, b: real)
    requires m > 0.0 && a <= b
    ensures m * a <= m * b
    ensures a < b ==> m * a < m * b
  {
  }

  /** The beat reached `now` seconds on a clock whose beat 0 was at `anchor`:
      elapsed seconds times beats per second. */
  function RawPosition(t: Transport, anchor: real, now: real): real {
    (now - anchor) * (t.tempo / 60.0)
  }

  /** A clock that has not gone backwards, at a non-negative tempo, is at a
      non-negative beat. */
  lemma RawNonNegative(t: Transport, anchor: real, now: real)
    requires now >= anchor && t.tempo >= 0.0
    ensures RawPosition(t, anchor, now) >= 0.0
  {
    var bps := t.tempo / 60.0;
    assert bps >= 0.0;
    if bps > 0.0 {
      MulMonotone(bps, 0.0, now - anchor);
      assert bps * (now - anchor) >= 0.0;
    }
  }

  /** Whether the step wraps around. The source wraps whenever `loop` is set
      and the end is reached, which for `maxTime == 0` is a remainder by
      zero (see `WrapAsWritten`); here a note list that ends at beat 0 has
      nothing to loop and plays as if `loop` were off. */
  predicate Looping(t: Transport, maxTime: real) {
    t.loop && maxTime > 0.0
  }

  /** The position the step reports and plays at, after the loop wrap. */
  function PositionAt(notes: seq<Note>, t: Transport, p: Player, now: real): (pos: real)
    ensures var raw := RawPosition(t, p.anchor, now);
      Looping(t, MaxTime(notes)) && raw >= 0.0 ==> 0.0 <= pos < MaxTime(notes)
    ensures !Looping(t, MaxTime(notes)) ==> pos == RawPosition(t, p.anchor, now)
    ensures Looping(t, MaxTime(notes)) ==>
      var back := (RawPosition(t, p.anchor, now) - pos) / MaxTime(notes);
      back.Floor as real == back
    ensures pos <= RawPosition(t, p.anchor, now)
  {
    var maxTime := MaxTime(notes);
    var raw := RawPosition(t, p.anchor, now);
    if Looping(t, maxTime) && raw >= maxTime then Rem(raw, maxTime) else raw
  }

  /** The clock after the step: when it wrapped, re-anchored so that the
      wrapped position is where the clock now stands. */
  function AnchorAfter(notes: seq<Note>, t: Transport, p: Player, now: real): (anchor: real)
    ensures RawPosition(t, anchor, now) == PositionAt(notes, t, p, now)
  {
    var maxTime := MaxTime(notes);
    var raw := RawPosition(t, p.anchor, now);
    if Looping(t, maxTime) && raw >= maxTime then
      var bps := t.tempo / 60.0;
      assert bps != 0.0;
      now - PositionAt(notes, t, p, now) / bps
    else p.anchor
  }

  /** A change to one voice, made while visiting one note: started with the
      transposed pitch and the note's velocity, or released with the pitch it
      was started with. */
  datatype Voice =
    | Started(id: NoteId, pitch: int, velocity: int)
    | Released(id: NoteId, pitch: int)

  /** The body of `notes.forEach` for one note at position `pos`. */
  function Visit(t: Transport, pos: real, active: map<NoteId, int>, n: Note)
    : (r: (map<NoteId, int>, seq<Voice>))
  {
    if n.muted then (active, [])
    else if n.startTime <= pos < n.EndTime() && n.id !in active then
      var pitch := n.pitch + t.octave * 12;
      if 0 <= pitch <= 127 then (active[n.id := pitch], [Started(n.id, pitch, n.velocity)])
      else (active, [])
    else if (pos >= n.EndTime() || pos < n.startTime) && n.id in active then
      (active - {n.id}, [Released(n.id, active[n.id])])
    else (active, [])
  }

  /** The whole `notes.forEach`, in list order. */
  function Pass(t: Transport, pos: real, active: map<NoteId, int>, notes: seq<Note>)
    : (r: (map<NoteId, int>, seq<Voice>))
    ensures |r.1| <= |notes|
  {
    if |notes| == 0 then (active, [])
    else
      var before := Pass(t, pos, active, notes[..|notes| - 1]);
      var after := Visit(t, pos, before.0, notes[|notes| - 1]);
      (after.0, before.1 + after.1)
  }

  /** The port call a voice change makes. */
  function Sink(channel: int, v: Voice): (o: Output)
    ensures v.Started? ==> o == NoteOn(v.pitch, v.velocity, channel)
    ensures v.Released? ==> o == NoteOff(v.pitch, channel)
  {
    match v
    case Started(_, pitch, velocity) => NoteOn(pitch, velocity, channel)
    case Released(_, pitch) => NoteOff(pitch, channel)
  }

  function SinkAll(channel: int, vs: seq<Voice>): (r: seq<Output>)
    ensures |r| == |vs|
    ensures forall i :: 0 <= i < |vs| ==> r[i] == Sink(channel, vs[i])
  {
    seq(|vs|, i requires 0 <= i < |vs| => Sink(channel, vs[i]))
  }

  /** The calls of the all-notes-off sweep of `stopPlayback`. */
  function Sweep(channel: int): (r: seq<Output>)
    ensures |r| == 128
    ensures forall p :: 0 <= p < 128 ==> r[p] == NoteOff(p, channel)
  {
    seq(128, p requires 0 <= p < 128 => NoteOff(p, channel))
  }

  /** `stopPlayback`'s loop, as written: a Note-Off for every pitch from 0
      up to 127, whatever is sounding. */
  method StopPlayback(channel: int) returns (calls: seq<Output>)
    ensures |calls| == 128
    ensures forall p :: 0 <= p < 128 ==> calls[p] == NoteOff(p, channel)
    ensures calls == Sweep(channel)
  {
    calls := [];
    var pitch := 0;
    while pitch <= 127
      invariant 0 <= pitch <= 128
      invariant |calls| == pitch
      invariant forall p :: 0 <= p < pitch ==> calls[p] == NoteOff(p, channel)
    {
      calls := calls + [NoteOff(pitch, channel)];
      pitch := pitch + 1;
    }
  }

  /** The outcome of one tick: the player's new state, the calls made, and
      whether playback stopped (the timer was cleared and `onComplete`
      called). */
  datatype TickResult = TickResult(player: Player, calls: seq<Output>, completed: bool)

  /** `tick`: compute the position (wrapping it when looping), report it,
      visit every note, and at the end of a non-looping playback sweep all
      notes off and complete. */
  function Tick(notes: seq<Note>, t: Transport, p: Player, now: real): (r: TickResult)
    ensures |r.calls| > 0 && r.calls[0] == Position(PositionAt(notes, t, p, now))
    ensures r.completed <==> !Looping(t, MaxTime(notes)) && PositionAt(notes, t, p, now) >= MaxTime(notes)
    ensures RawPosition(t, r.player.anchor, now) == PositionAt(notes, t, p, now)
  {
    var pos := PositionAt(notes, t, p, now);
    var pass := Pass(t, pos, p.active, notes);
    var player := Player(AnchorAfter(notes, t, p, now), pass.0);
    var completed := !Looping(t, MaxTime(notes)) && pos >= MaxTime(notes);
    TickResult(player, TickCalls(t.channel, pos, pass.1, completed), completed)
  }

  /** The calls of a tick: the position report, the port calls of the voice
      changes and, when playback completes, the sweep and `onComplete`. */
  function TickCalls(channel: int, pos: real, vs: seq<Voice>, completed: bool): (r: seq<Output>)
    ensures |r| == 1 + |vs| + (if completed then 129 else 0)
    ensures r[0] == Position(pos)
  {
    [Position(pos)] + SinkAll(channel, vs) + (if completed then Sweep(channel) + [Complete] else [])
  }

  /** The position is reported exactly once, first; the port calls of the
      voice changes follow in order; `onComplete` is made at most once, last,
      right after the sweep, and only by a completing tick. */
  lemma TickCallsShape(channel: int, pos: real, vs: seq<Voice>, completed: bool)
    ensures var r := TickCalls(channel, pos, vs, completed);
      && (forall i :: 0 < i < |r| ==> !r[i].Position?)
      && r[1..1 + |vs|] == SinkAll(channel, vs)
      && (completed ==> r[1 + |vs|..] == Sweep(channel) + [Complete])
      && (forall i :: 0 <= i < |r| && r[i] == Complete ==> completed && i == |r| - 1)
  {
    var r := TickCalls(channel, pos, vs, completed);
    var tail := if completed then Sweep(channel) + [Complete] else [];
    assert r == [Position(pos)] + SinkAll(channel, vs) + tail;
    assert r[1..1 + |vs|] == SinkAll(channel, vs);
    assert r[1 + |vs|..] == tail;
    forall i | 0 < i < |r|
      ensures !r[i].Position?
      ensures r[i] == Complete ==> completed && i == |r| - 1
    {
      if i <= |vs| {
        assert r[i] == SinkAll(channel, vs)[i - 1];
      } else {
        assert r[i] == tail[i - 1 - |vs|];
      }
    }
  }

  /** The ids of some notes. */
  function Ids(notes: seq<Note>): (r: set<NoteId>)
    ensures forall n :: n in notes ==> n.id in r
  {
    set n | n in notes :: n.id
  }

  /** What the player keeps between ticks is consistent: every sounding
      voice belongs to a note that is not muted and has a pitch the port
      accepts. */
  predicate ActiveOk(notes: seq<Note>, active: map<NoteId, int>) {
    forall id :: id in active ==> id in Ids(Unmuted(notes)) && 0 <= active[id] <= 127
  }

  /** The voice bookkeeping of a list of changes: starting a voice needs its
      id to be silent and records the pitch; releasing one needs it to be
      sounding with that very pitch and forgets it. `None` when a change
      breaks those rules. */
  function Replay(active: map<NoteId, int>, vs: seq<Voice>): (r: Option<map<NoteId, int>>)
  {
    if |vs| == 0 then Some(active)
    else match Replay(active, vs[..|vs| - 1])
      case None => None
      case Some(m) =>
        match vs[|vs| - 1]
        case Started(id, pitch, _) => if id in m then None else Some(m[id := pitch])
        case Released(id, pitch) => if id in m && m[id] == pitch then Some(m - {id}) else None
  }

  lemma ReplaySnoc(active: map<NoteId, int>, vs: seq<Voice>, ws: seq<Voice>, m: map<NoteId, int>)
    requires Replay(active, vs) == Some(m)
    ensures Replay(active, vs + ws) == Replay(m, ws)
    decreases |ws|
  {
    if |ws| > 0 {
      var init := ws[..|ws| - 1];
      assert (vs + ws)[..|vs + ws| - 1] == vs + init;
      ReplaySnoc(active, vs, init, m);
    } else {
      assert vs + ws == vs;
    }
  }

  /** The voice invariant: the changes one pass makes obey the bookkeeping
      rules, and the map the pass leaves is exactly the one they describe.
      So an id is sounding exactly when a Note-On was sent for it and no
      Note-Off since, a Note-Off carries the pitch its Note-On had, and a
      sounding voice is never started twice. */
  lemma {:induction false} PassFollowsVoices(t: Transport, pos: real, active: map<NoteId, int>, notes: seq<Note>)
    ensures Replay(active, Pass(t, pos, active, notes).1) == Some(Pass(t, pos, active, notes).0)
    decreases |notes|
  {
    if |notes| > 0 {
      var init := notes[..|notes| - 1];
      var before := Pass(t, pos, active, init);
      PassFollowsVoices(t, pos, active, init);
      var after := Visit(t, pos, before.0, notes[|notes| - 1]);
      ReplaySnoc(active, before.1, after.1, before.0);
      if |after.1| == 1 {
        assert after.1[..0] == [];
      }
    }
  }

  /** Every voice change is justified by a note that is not muted: a start
      by a note whose span holds the position, whose id was silent and whose
      transposed pitch is in range; a release by a note whose span the
      position has left. */
  lemma {:induction false} PassVoicesJustified(t: Transport, pos: real, active: map<NoteId, int>, notes: seq<Note>)
    ensures forall v :: v in Pass(t, pos, active, notes).1 && v.Started? ==>
      exists n :: n in notes && !n.muted && n.id == v.id && n.startTime <= pos < n.EndTime()
        && v.pitch == n.pitch + t.octave * 12 && 0 <= v.pitch <= 127 && v.velocity == n.velocity
    ensures forall v :: v in Pass(t, pos, active, notes).1 && v.Released? ==>
      exists n :: n in notes && !n.muted && n.id == v.id && (pos >= n.EndTime() || pos < n.startTime)
    decreases |notes|
  {
    if |notes| > 0 {
      var init := notes[..|notes| - 1];
      PassVoicesJustified(t, pos, active, init);
      assert forall n :: n in init ==> n in notes;
    }
  }

  /** Two voice maps agree about one id: both silent, or both sounding the
      same pitch. */
  predicate SameAt(m1: map<NoteId, int>, m2: map<NoteId, int>, id: NoteId) {
    (id in m1 <==> id in m2) && (id in m1 ==> m1[id] == m2[id])
  }

  /** No two notes share an id, as with the fresh ids the roll hands out. */
  predicate UniqueIds(notes: seq<Note>) {
    forall i, j :: 0 <= i < j < |notes| ==> notes[i].id != notes[j].id
  }

  /** Visiting a note touches only that note's voice, and what it does
      depends only on that voice. */
  lemma VisitLocal(t: Transport, pos: real, m1: map<NoteId, int>, m2: map<NoteId, int>, n: Note)
    requires SameAt(m1, m2, n.id)
    ensures Visit(t, pos, m1, n).1 == Visit(t, pos, m2, n).1
    ensures SameAt(Visit(t, pos, m1, n).0, Visit(t, pos, m2, n).0, n.id)
    ensures forall id :: id != n.id ==> SameAt(Visit(t, pos, m1, n).0, m1, id)
    ensures forall v :: v in Visit(t, pos, m1, n).1 ==> v.id == n.id
  {
  }

  /** A pass over notes that do not carry `id` leaves that voice alone and
      makes no change to it. */
  lemma {:induction false} PassKeepsId(t: Transport, pos: real, active: map<NoteId, int>, notes: seq<Note>, id: NoteId)
    requires forall n :: n in notes ==> n.id != id
    ensures SameAt(Pass(t, pos, active, notes).0, active, id)
    ensures forall v :: v in Pass(t, pos, active, notes).1 ==> v.id != id
    decreases |notes|
  {
    if |notes| > 0 {
      var init := notes[..|notes| - 1];
      var last := notes[|notes| - 1];
      assert last in notes;
      assert forall n :: n in init ==> n in notes;
      PassKeepsId(t, pos, active, init, id);
      VisitLocal(t, pos, Pass(t, pos, active, init).0, Pass(t, pos, active, init).0, last);
    }
  }

  /** With distinct ids, a pass does to each note's voice exactly what
      visiting that note alone would do, and makes that visit's change. */
  lemma {:induction false} PassPerNote(t: Transport, pos: real, active: map<NoteId, int>, notes: seq<Note>, k: nat)
    requires UniqueIds(notes) && k < |notes|
    ensures SameAt(Pass(t, pos, active, notes).0, Visit(t, pos, active, notes[k]).0, notes[k].id)
    ensures forall v :: v in Visit(t, pos, active, notes[k]).1 ==> v in Pass(t, pos, active, notes).1
    decreases |notes|
  {
    var init := notes[..|notes| - 1];
    var last := notes[|notes| - 1];
    var before := Pass(t, pos, active, init);
    var after := Visit(t, pos, before.0, last);
    assert Pass(t, pos, active, notes) == (after.0, before.1 + after.1);
    if k == |notes| - 1 {
      forall n | n in init ensures n.id != last.id {
        var i :| 0 <= i < |init| && init[i] == n;
        assert notes[i] == n;
      }
      PassKeepsId(t, pos, active, init, last.id);
      VisitLocal(t, pos, before.0, active, last);
    } else {
      assert UniqueIds(init);
      PassPerNote(t, pos, active, init, k);
      assert init[k] == notes[k];
      VisitLocal(t, pos, before.0, before.0, last);
      assert notes[k].id != last.id;
    }
  }

  /** The other direction of `PassVoicesJustified`, for distinct ids: a note
      that is not muted is started when its span holds the position, its id
      is silent and its transposed pitch is in range; it is released, with
      the pitch it was started with, once the position is outside its span;
      a sounding note inside its span is left as it is; a muted note's voice
      is never touched. */
  lemma PassStartsAndReleases(t: Transport, pos: real, active: map<NoteId, int>, notes: seq<Note>, k: nat)
    requires UniqueIds(notes) && k < |notes|
    ensures var n := notes[k]; var pitch := n.pitch + t.octave * 12; var r := Pass(t, pos, active, notes);
      !n.muted && n.startTime <= pos < n.EndTime() && n.id !in active && 0 <= pitch <= 127 ==>
        Started(n.id, pitch, n.velocity) in r.1 && n.id in r.0 && r.0[n.id] == pitch
    ensures var n := notes[k]; var r := Pass(t, pos, active, notes);
      !n.muted && (pos >= n.EndTime() || pos < n.startTime) && n.id in active ==>
        Released(n.id, active[n.id]) in r.1 && n.id !in r.0
    ensures var n := notes[k]; var r := Pass(t, pos, active, notes);
      n.muted || (n.startTime <= pos < n.EndTime() && n.id in active) ==> SameAt(r.0, active, n.id)
  {
    PassPerNote(t, pos, active, notes, k);
  }

  /** Muted notes make no calls: a pass over the notes is a pass over the
      notes that are not muted. */
  lemma {:induction false} PassIgnoresMuted(t: Transport, pos: real, active: map<NoteId, int>, notes: seq<Note>)
    ensures Pass(t, pos, active, notes) == Pass(t, pos, active, Unmuted(notes))
    decreases |notes|
  {
    if |notes| > 0 {
      var init := notes[..|notes| - 1];
      var last := notes[|notes| - 1];
      PassIgnoresMuted(t, pos, active, init);
      if !last.muted {
        var u := Unmuted(init) + [last];
        assert Unmuted(notes) == u;
        assert u[..|u| - 1] == Unmuted(init);
      } else {
        assert Unmuted(notes) == Unmuted(init);
        assert Pass(t, pos, active, init).1 + [] == Pass(t, pos, active, init).1;
      }
    }
  }

  /** The pass keeps the player consistent. */
  lemma {:induction false} PassKeepsActiveOk(t: Transport, pos: real, active: map<NoteId, int>, notes: seq<Note>, all: seq<Note>)
    requires ActiveOk(all, active)
    requires forall n :: n in notes ==> n in all
    ensures ActiveOk(all, Pass(t, pos, active, notes).0)
    decreases |notes|
  {
    if |notes| > 0 {
      var init := notes[..|notes| - 1];
      var last := notes[|notes| - 1];
      PassKeepsActiveOk(t, pos, active, init, all);
      if !last.muted {
        assert last in Unmuted(all);
      }
    }
  }

  /** Once every note has ended, a pass releases every voice of a note that
      is not muted and starts none, so only voices of other ids remain. */
  lemma {:induction false} PassAfterEnd(t: Transport, pos: real, active: map<NoteId, int>, notes: seq<Note>)
    requires forall n :: n in notes ==> n.EndTime() <= pos
    ensures forall id :: id in Pass(t, pos, active, notes).0 <==> id in active && id !in Ids(Unmuted(notes))
    decreases |notes|
  {
    if |notes| > 0 {
      var init := notes[..|notes| - 1];
      var last := notes[|notes| - 1];
      assert notes == init + [last];
      PassAfterEnd(t, pos, active, init);
      if !last.muted {
        assert Unmuted(notes) == Unmuted(init) + [last];
        assert Ids(Unmuted(notes)) == Ids(Unmuted(init)) + {last.id};
      } else {
        assert Unmuted(notes) == Unmuted(init);
      }
    }
  }

  /** A tick keeps the player consistent. */
  lemma TickKeepsActiveOk(notes: seq<Note>, t: Transport, p: Player, now: real)
    requires ActiveOk(notes, p.active)
    ensures ActiveOk(notes, Tick(notes, t, p, now).player.active)
  {
    PassKeepsActiveOk(t, PositionAt(notes, t, p, now), p.active, notes, notes);
  }

  /** The calls of a tick after the position report are the port calls of
      a voice-consistent list of changes (and, at completion, the sweep and
      `onComplete`), so a Note-Off always matches a sounding voice. */
  lemma TickFollowsVoices(notes: seq<Note>, t: Transport, p: Player, now: real)
    ensures var r := Tick(notes, t, p, now);
      var pass := Pass(t, PositionAt(notes, t, p, now), p.active, notes);
      && Replay(p.active, pass.1) == Some(r.player.active)
      && r.calls[1..1 + |pass.1|] == SinkAll(t.channel, pass.1)
  {
    var pos := PositionAt(notes, t, p, now);
    var pass := Pass(t, pos, p.active, notes);
    PassFollowsVoices(t, pos, p.active, notes);
    TickCallsShape(t.channel, pos, pass.1, Tick(notes, t, p, now).completed);
  }

  /** The tick sends the Note-On of every due note and the Note-Off of every
      sounding note whose span the position has left (distinct ids). */
  lemma TickStartsAndReleases(notes: seq<Note>, t: Transport, p: Player, now: real, k: nat)
    requires UniqueIds(notes) && k < |notes|
    ensures var n := notes[k]; var pitch := n.pitch + t.octave * 12;
      var pos := PositionAt(notes, t, p, now); var r := Tick(notes, t, p, now);
      !n.muted && n.startTime <= pos < n.EndTime() && n.id !in p.active && 0 <= pitch <= 127 ==>
        NoteOn(pitch, n.velocity, t.channel) in r.calls && n.id in r.player.active && r.player.active[n.id] == pitch
    ensures var n := notes[k]; var pos := PositionAt(notes, t, p, now); var r := Tick(notes, t, p, now);
      !n.muted && (pos >= n.EndTime() || pos < n.startTime) && n.id in p.active ==>
        NoteOff(p.active[n.id], t.channel) in r.calls && n.id !in r.player.active
  {
    var pos := PositionAt(notes, t, p, now);
    var pass := Pass(t, pos, p.active, notes);
    var r := Tick(notes, t, p, now);
    assert r.calls == TickCalls(t.channel, pos, pass.1, r.completed);
    assert r.player.active == pass.0;
    PassStartsAndReleases(t, pos, p.active, notes, k);
    TickCallsSink(t.channel, pos, pass.1, r.completed);
  }

  /** Every voice change of a tick makes its port call. */
  lemma TickCallsSink(channel: int, pos: real, vs: seq<Voice>, completed: bool)
    ensures forall v :: v in vs ==> Sink(channel, v) in TickCalls(channel, pos, vs, completed)
  {
    var r := TickCalls(channel, pos, vs, completed);
    TickCallsShape(channel, pos, vs, completed);
    forall v | v in vs ensures Sink(channel, v) in r {
      var i :| 0 <= i < |vs| && vs[i] == v;
      assert r[1 + i] == r[1..1 + |vs|][i];
    }
  }

  /** A tick that completes leaves no voice sounding, even before its
      sweep. */
  lemma CompletionSilences(notes: seq<Note>, t: Transport, p: Player, now: real)
    requires ActiveOk(notes, p.active)
    requires Tick(notes, t, p, now).completed
    ensures Tick(notes, t, p, now).player.active == map[]
  {
    var pos := PositionAt(notes, t, p, now);
    PassAfterEnd(t, pos, p.active, notes);
    var m := Tick(notes, t, p, now).player.active;
    assert forall id :: id !in m;
    assert m.Keys == {};
  }

  /** The sweep silences whatever a consistent player has sounding. */
  lemma SweepCoversActive(notes: seq<Note>, active: map<NoteId, int>, channel: int)
    requires ActiveOk(notes, active)
    ensures forall id :: id in active ==> NoteOff(active[id], channel) in Sweep(channel)
  {
    forall id | id in active
      ensures NoteOff(active[id], channel) in Sweep(channel)
    {
      assert Sweep(channel)[active[id]] == NoteOff(active[id], channel);
    }
  }

  /** `position % maxTime` as the source writes it, with `None` standing for
      the NaN a remainder by zero gives. */
  function WrapAsWritten(raw: real, maxTime: real, loop: bool): (r: Option<real>)
    ensures r.None? <==> loop && raw >= maxTime && maxTime == 0.0
    ensures r.Some? && loop && raw >= maxTime && maxTime > 0.0 ==> 0.0 <= r.value < maxTime
  {
    if loop && raw >= maxTime then
      if maxTime == 0.0 then None else Some(Rem(raw, maxTime))
    else Some(raw)
  }

  /** The guard changes nothing but the `maxTime == 0` loop: everywhere
      else the wrap as written gives the position the step plays at. */
  lemma GuardOnlyEmptyLoop(notes: seq<Note>, t: Transport, p: Player, now: real)
    requires !t.loop || MaxTime(notes) > 0.0
    ensures WrapAsWritten(RawPosition(t, p.anchor, now), MaxTime(notes), t.loop) == Some(PositionAt(notes, t, p, now))
  {
  }

  /** Looping an empty roll: as written, the very first tick turns the
      position (and with it the anchor, so every later tick) into NaN. */
  lemma EmptyLoopIsNaN(t: Transport, p: Player, now: real)
    requires t.loop && now >= p.anchor && t.tempo >= 0.0
    ensures WrapAsWritten(RawPosition(t, p.anchor, now), MaxTime([]), t.loop).None?
  {
    RawNonNegative(t, p.anchor, now);
  }

  /** With the guard, looping an empty roll behaves like playing it: the
      first tick reports a real position and completes. */
  lemma EmptyLoopCompletes(t: Transport, p: Player, now: real)
    requires t.loop && now >= p.anchor && t.tempo >= 0.0
    ensures Tick([], t, p, now).completed
    ensures Tick([], t, p, now).calls[0] == Position(RawPosition(t, p.anchor, now))
  {
    RawNonNegative(t, p.anchor, now);
  }

  /** A pass over a single note is a visit of it. */
  lemma PassSingle(t: Transport, pos: real, active: map<NoteId, int>, n: Note)
    ensures Pass(t, pos, active, [n]) == Visit(t, pos, active, n)
  {
    assert [n][..0] == [];
    assert [] + Visit(t, pos, active, n).1 == Visit(t, pos, active, n).1;
  }

  /** One note at beats [0, 1), tempo 120 (two beats a second), started at
      time 0: at 0.4 s the position is beat 0.8 and the note is started; at
      0.6 s the position is beat 1.2, the note is released exactly once by
      the pass, and playback completes with the sweep. */
  lemma OneNoteExample(velocity: int)
    ensures var notes := [Note(7, 60, 0.0, 1.0, velocity, false)];
      var t := Transport(120.0, 1, 0, false);
      var first := Tick(notes, t, Start(0.0), 0.4);
      && first == TickResult(Player(0.0, map[7 := 60]), [Position(0.8), NoteOn(60, velocity, 1)], false)
      && Tick(notes, t, first.player, 0.6)
         == TickResult(Player(0.0, map[]), [Position(1.2), NoteOff(60, 1)] + Sweep(1) + [Complete], true)
  {
    var n := Note(7, 60, 0.0, 1.0, velocity, false);
    var notes := [n];
    var t := Transport(120.0, 1, 0, false);
    assert MaxTime(notes) == 1.0 by {
      assert notes[..0] == [];
    }
    var p0 := Start(0.0);
    assert PositionAt(notes, t, p0, 0.4) == 0.8;
    PassSingle(t, 0.8, map[], n);
    var on := [Started(7, 60, velocity)];
    assert Pass(t, 0.8, map[], notes) == (map[7 := 60], on);
    assert SinkAll(1, on) == [NoteOn(60, velocity, 1)];
    assert TickCalls(1, 0.8, on, false) == [Position(0.8), NoteOn(60, velocity, 1)];
    var p1 := Player(0.0, map[7 := 60]);
    assert PositionAt(notes, t, p1, 0.6) == 1.2;
    PassSingle(t, 1.2, map[7 := 60], n);
    var off := [Released(7, 60)];
    assert Pass(t, 1.2, map[7 := 60], notes) == (map[], off);
    assert SinkAll(1, off) == [NoteOff(60, 1)];
    assert TickCalls(1, 1.2, off, true) == [Position(1.2), NoteOff(60, 1)] + Sweep(1) + [Complete];
  }

  /** A transposition that leaves the MIDI range is skipped, not clamped:
      pitch 10 an octave down never sounds. */
  lemma OctaveSkipExample(now: real)
    requires 0.0 <= now < 0.5
    ensures var notes := [Note(1, 10, 0.0, 1.0, 100, false)];
      var r := Tick(notes, Transport(120.0, 1, -1, false), Start(0.0), now);
      r.calls == [Position(now * 2.0)] && r.player.active == map[]
  {
    var n := Note(1, 10, 0.0, 1.0, 100, false);
    var notes := [n];
    var t := Transport(120.0, 1, -1, false);
    assert MaxTime(notes) == 1.0 by {
      assert notes[..0] == [];
    }
    var pos := PositionAt(notes, t, Start(0.0), now);
    assert pos == now * 2.0;
    PassSingle(t, pos, map[], n);
    assert Pass(t, pos, map[], notes) == (map[], []);
    assert TickCalls(1, pos, [], false) == [Position(pos)];
  }
}
