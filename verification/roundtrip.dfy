/** Exporting and importing again: the file `createMidiFile` writes for a
    roll, read back by `parseMidiFile`, holds the exported notes again, as a
    multiset of (pitch, velocity, start, duration).

    The proof follows every event of the sorted schedule back to its origin:
    the tempo event or the Note-On or Note-Off of one exported note. Walking
    the sorted schedule, the decoder's pending map holds exactly the notes
    whose Note-On has been read and whose Note-Off has not, and the notes it
    has emitted are those whose Note-Off has been read. */
module RoundTrip {
  import opened Types
  import opened StableSort
  import opened Decoder
  import opened Encoder
  import opened TrackDecoding

  /** A beat that falls on a tick of the 480-per-beat grid. */
  predicate OnGrid(x: real) {
    (x * 480.0).Floor as real == x * 480.0
  }

  /** A note the file format carries without loss: on the grid, at least a
      tenth of a beat long (the decoder's minimum duration), ending before
      tick 2^28, with a data pitch and a positive data velocity. */
  predicate ExportableNote(n: Note) {
    && OnGrid(n.startTime) && OnGrid(n.duration)
    && 0.0 <= n.startTime && 0.1 <= n.duration
    && (n.startTime + n.duration) * 480.0 < 0x1000_0000 as real
    && 0 <= n.pitch < 0x80 && 0 < n.velocity < 0x80
  }

  /** Neither note overlaps or touches the other. */
  predicate Separated(a: Note, b: Note) {
    a.EndTime() < b.startTime || b.EndTime() < a.startTime
  }

  /** Every note is exportable and no two of the same pitch overlap or touch. */
  predicate Clean(u: seq<Note>) {
    && (forall i :: 0 <= i < |u| ==> ExportableNote(u[i]))
    && (forall i, j :: 0 <= i < |u| && 0 <= j < |u| && i != j && u[i].pitch == u[j].pitch ==>
          Separated(u[i], u[j]))
  }

  /** A roll whose unmuted notes are clean, small enough for the file's
      length field. */
  predicate Exportable(notes: seq<Note>) {
    |notes| < 0x0300_0000 && Clean(Unmuted(notes))
  }

  // ----- ticks of grid beats -----

  lemma GridTick(x: real)
    requires OnGrid(x)
    ensures TickOf(x) as real == x * 480.0
    ensures TickOf(x) as real / 480.0 == x
  {
    var y := x * TicksPerBeat as real;
    assert y == x * 480.0;
    var k := y.Floor;
    assert k as real == y;
    assert (y + 0.5).Floor == k by {
      assert k as real <= y + 0.5 < (k + 1) as real;
    }
  }

  lemma GridSum(a: real, b: real)
    requires OnGrid(a) && OnGrid(b)
    ensures OnGrid(a + b)
  {
    var fa := (a * 480.0).Floor;
    var fb := (b * 480.0).Floor;
    assert (a + b) * 480.0 == (fa + fb) as real;
  }

  /** The ticks the encoder gives an exportable note: the Note-Off lies at
      least 48 ticks after the Note-On, both in [0, 2^28), and dividing by
      the resolution gives back the note's start and end. */
  lemma NoteTicks(n: Note)
    requires ExportableNote(n)
    ensures var on := TickOf(n.startTime);
      var off := TickOf(n.startTime + n.duration);
      && 0 <= on && on + 48 <= off && off < 0x1000_0000
      && on as real / 480.0 == n.startTime
      && off as real / 480.0 == n.startTime + n.duration
  {
    GridTick(n.startTime);
    GridSum(n.startTime, n.duration);
    GridTick(n.startTime + n.duration);
  }

  /** Separated notes have separated ticks. */
  lemma SeparatedTicks(a: Note, b: Note)
    requires ExportableNote(a) && ExportableNote(b) && Separated(a, b)
    ensures TickOf(a.startTime + a.duration) < TickOf(b.startTime)
         || TickOf(b.startTime + b.duration) < TickOf(a.startTime)
  {
    NoteTicks(a);
    NoteTicks(b);
    GridTick(a.startTime);
    GridTick(b.startTime);
    GridSum(a.startTime, a.duration);
    GridSum(b.startTime, b.duration);
    GridTick(a.startTime + a.duration);
    GridTick(b.startTime + b.duration);
  }

  // ----- where each scheduled event comes from -----

  /** The origin of an event of the schedule. */
  datatype Tag = TempoTag | OnTag(i: nat) | OffTag(i: nat)

  function On(u: seq<Note>, i: nat): Timed<Tag>
    requires i < |u|
  {
    Timed(TickOf(u[i].startTime), OnTag(i))
  }

  function Off(u: seq<Note>, i: nat): Timed<Tag>
    requires i < |u|
  {
    Timed(TickOf(u[i].startTime + u[i].duration), OffTag(i))
  }

  /** The tags of the note events, note by note. */
  function TagList(u: seq<Note>): (r: seq<Timed<Tag>>)
    ensures |r| == 2 * |u|
    ensures forall i :: 0 <= i < |u| ==> r[2 * i] == On(u, i) && r[2 * i + 1] == Off(u, i)
  {
    seq(2 * |u|, k requires 0 <= k < 2 * |u| => if k % 2 == 0 then On(u, k / 2) else Off(u, k / 2))
  }

  /** The tags of the event list before sorting. */
  function Tagged(u: seq<Note>): seq<Timed<Tag>> {
    [Timed(0, TempoTag)] + TagList(u)
  }

  /** The message an origin stands for, `head` being the Set Tempo message. */
  function ItemOf(u: seq<Note>, head: seq<int>, t: Tag): seq<int> {
    match t
    case TempoTag => head
    case OnTag(i) => if i < |u| then [0x90, u[i].pitch, u[i].velocity] else []
    case OffTag(i) => if i < |u| then [0x80, u[i].pitch, 0] else []
  }

  function Items(u: seq<Note>, head: seq<int>): Tag -> seq<int> {
    t => ItemOf(u, head, t)
  }

  /** An entry of the tag list with the tick its origin is given. */
  predicate ValidTag(u: seq<Note>, x: Timed<Tag>) {
    match x.item
    case TempoTag => x.tick == 0
    case OnTag(i) => i < |u| && x == On(u, i)
    case OffTag(i) => i < |u| && x == Off(u, i)
  }

  predicate NoDup<T(==)>(s: seq<T>) {
    forall a, b :: 0 <= a < b < |s| ==> s[a] != s[b]
  }

  /** Rewriting the tags to their messages gives the encoder's event list. */
  lemma TaggedItems(notes: seq<Note>, tempo: real)
    requires tempo != 0.0
    ensures var u := Unmuted(notes);
      MapItems(Tagged(u), Items(u, TempoEvent(tempo).item)) == BuildEvents(notes, tempo)
  {
    var u := Unmuted(notes);
    var f := Items(u, TempoEvent(tempo).item);
    var a := MapItems(Tagged(u), f);
    var b := BuildEvents(notes, tempo);
    assert a[0] == b[0];
    forall k | 1 <= k < |a| ensures a[k] == b[k] {
      assert b[k] == b[1..][k - 1];
      ItemAt(u, TempoEvent(tempo).item, k);
    }
  }

  /** Entry `k` (after the tempo event) of the tag list, rewritten to its
      message, is entry `k - 1` of the note events. */
  lemma ItemAt(u: seq<Note>, head: seq<int>, k: nat)
    requires 1 <= k < |Tagged(u)|
    ensures Timed(Tagged(u)[k].tick, ItemOf(u, head, Tagged(u)[k].item)) == NoteEventList(u)[k - 1]
  {
    var i := (k - 1) / 2;
    TagAt(u, k);
    if (k - 1) % 2 == 0 {
      assert k - 1 == 2 * i;
      OnItem(u, head, i);
    } else {
      assert k - 1 == 2 * i + 1;
      OffItem(u, head, i);
    }
  }

  /** The Note-On tag of note `i`, rewritten to its message, is the note's
      Note-On event. */
  lemma OnItem(u: seq<Note>, head: seq<int>, i: nat)
    requires i < |u|
    ensures Timed(On(u, i).tick, ItemOf(u, head, On(u, i).item)) == NoteEventList(u)[2 * i]
  {
  }

  /** The Note-Off tag of note `i`, rewritten to its message, is the note's
      Note-Off event. */
  lemma OffItem(u: seq<Note>, head: seq<int>, i: nat)
    requires i < |u|
    ensures Timed(Off(u, i).tick, ItemOf(u, head, Off(u, i).item)) == NoteEventList(u)[2 * i + 1]
  {
  }

  /** Entry `k` of the tag list, after the tempo event. */
  lemma TagAt(u: seq<Note>, k: nat)
    requires 1 <= k < |Tagged(u)|
    ensures (k - 1) / 2 < |u|
    ensures Tagged(u)[k] == if (k - 1) % 2 == 0 then On(u, (k - 1) / 2) else Off(u, (k - 1) / 2)
  {
    var i := (k - 1) / 2;
    assert Tagged(u)[k] == TagList(u)[k - 1];
    if (k - 1) % 2 == 0 {
      assert k - 1 == 2 * i;
    } else {
      assert k - 1 == 2 * i + 1;
    }
  }

  /** The tag list has no repeated entry, every entry has its origin's tick,
      and every note's Note-On and Note-Off tags occur in it. */
  lemma TaggedFacts(u: seq<Note>)
    ensures NoDup(Tagged(u))
    ensures forall x :: x in Tagged(u) ==> ValidTag(u, x)
    ensures forall j :: 0 <= j < |u| ==> On(u, j) in Tagged(u) && Off(u, j) in Tagged(u)
  {
    var tags := Tagged(u);
    forall k | 0 <= k < |tags| ensures ValidTag(u, tags[k]) {
      if k > 0 {
        TagAt(u, k);
      }
    }
    forall j | 0 <= j < |u| ensures On(u, j) in tags && Off(u, j) in tags {
      TagAt(u, 2 * j + 1);
      TagAt(u, 2 * j + 2);
    }
    forall a, b | 0 <= a < b < |tags| ensures tags[a] != tags[b] {
      if a > 0 {
        TagAt(u, a);
        TagAt(u, b);
        assert tags[a].item != tags[b].item;
      }
    }
  }

  // ----- the decoder's state along the sorted schedule -----

  /** The decoder's state before the first event. */
  function Initial(): DecodeState {
    DecodeState([], map[])
  }

  /** The pending entry at the note's pitch is the note's own start and
      velocity. */
  predicate PendingAs(st: DecodeState, n: Note) {
    n.pitch in st.pending && st.pending[n.pitch] == Pending(n.startTime, n.velocity)
  }

  /** The sounds of the notes before index `n` whose Note-Off is among
      `seen`. */
  function ClosedSounds(u: seq<Note>, seen: seq<Timed<Tag>>, n: nat): multiset<Sound>
    requires n <= |u|
  {
    if n == 0 then multiset{}
    else ClosedSounds(u, seen, n - 1) + (if Off(u, n - 1) in seen then multiset{SoundOf(u[n - 1])} else multiset{})
  }

  /** After the events `seen`, every note whose Note-On has been read and
      whose Note-Off has not is pending at its pitch, and the notes emitted
      sound exactly like those whose Note-Off has been read. */
  ghost predicate Inv(u: seq<Note>, seen: seq<Timed<Tag>>, st: DecodeState) {
    && (forall i :: 0 <= i < |u| && On(u, i) in seen && Off(u, i) !in seen ==> PendingAs(st, u[i]))
    && multiset(Sounds(st.notes)) == ClosedSounds(u, seen, |u|)
  }

  /** The decoder's effect of the event a tag stands for. */
  function Step(u: seq<Note>, head: seq<int>, st: DecodeState, x: Timed<Tag>): DecodeState {
    Effect(st, Timed(x.tick, ItemOf(u, head, x.item)))
  }

  lemma {:induction false} ClosedEmpty(u: seq<Note>, n: nat)
    requires n <= |u|
    ensures ClosedSounds(u, [], n) == multiset{}
  {
    if n > 0 {
      ClosedEmpty(u, n - 1);
    }
  }

  /** Reading an event that is no Note-Off closes no note. */
  lemma {:induction false} ClosedSame(u: seq<Note>, seen: seq<Timed<Tag>>, x: Timed<Tag>, n: nat)
    requires n <= |u| && !x.item.OffTag?
    ensures ClosedSounds(u, seen + [x], n) == ClosedSounds(u, seen, n)
  {
    if n > 0 {
      ClosedSame(u, seen, x, n - 1);
      assert Off(u, n - 1) in seen + [x] <==> Off(u, n - 1) in seen;
    }
  }

  /** Reading the Note-Off of note `i` closes that note. */
  lemma {:induction false} ClosedAdd(u: seq<Note>, seen: seq<Timed<Tag>>, i: nat, n: nat)
    requires i < |u| && n <= |u| && Off(u, i) !in seen
    ensures i < n ==> ClosedSounds(u, seen + [Off(u, i)], n) == ClosedSounds(u, seen, n) + multiset{SoundOf(u[i])}
    ensures n <= i ==> ClosedSounds(u, seen + [Off(u, i)], n) == ClosedSounds(u, seen, n)
  {
    if n > 0 {
      ClosedAdd(u, seen, i, n - 1);
      var seen' := seen + [Off(u, i)];
      var x := Off(u, n - 1);
      if n - 1 == i {
        assert x in seen';
      } else {
        assert x in seen' <==> x in seen;
      }
    }
  }

  /** Once every Note-Off is read, every note is closed. */
  lemma {:induction false} ClosedAll(u: seq<Note>, seen: seq<Timed<Tag>>, n: nat)
    requires n <= |u|
    requires forall j :: 0 <= j < |u| ==> Off(u, j) in seen
    ensures ClosedSounds(u, seen, n) == multiset(Sounds(u[..n]))
  {
    if n > 0 {
      ClosedAll(u, seen, n - 1);
      assert u[..n][..n - 1] == u[..n - 1];
    }
  }

  lemma SoundsSnoc(a: seq<Note>, n: Note)
    ensures Sounds(a + [n]) == Sounds(a) + [SoundOf(n)]
  {
    assert (a + [n])[..|a|] == a;
  }

  /** Two different notes of one pitch have ticks apart. */
  lemma ApartIfSamePitch(u: seq<Note>, i: nat, j: nat)
    requires Clean(u) && i < |u| && j < |u| && i != j
    ensures u[i].pitch == u[j].pitch ==> Off(u, i).tick < On(u, j).tick || Off(u, j).tick < On(u, i).tick
  {
    if u[i].pitch == u[j].pitch {
      SeparatedTicks(u[i], u[j]);
    }
  }

  /** The tempo event changes nothing the invariant speaks of. */
  lemma TempoStep(u: seq<Note>, head: seq<int>, seen: seq<Timed<Tag>>, st: DecodeState, x: Timed<Tag>)
    requires IsSetTempo(head) && x.item == TempoTag
    requires Inv(u, seen, st)
    ensures Inv(u, seen + [x], Step(u, head, st, x))
  {
    assert Step(u, head, st, x) == st;
    ClosedSame(u, seen, x, |u|);
    forall i | 0 <= i < |u| ensures On(u, i) in seen + [x] <==> On(u, i) in seen
      ensures Off(u, i) in seen + [x] <==> Off(u, i) in seen
    {
    }
  }

  /** A Note-On read when every event before it has a tick no later, and
      every unread Note-Off a tick no earlier, opens its note. */
  lemma OnStep(u: seq<Note>, head: seq<int>, seen: seq<Timed<Tag>>, st: DecodeState, i: nat)
    requires Clean(u) && i < |u|
    requires Inv(u, seen, st)
    requires forall y :: y in seen ==> y.tick <= On(u, i).tick
    requires forall j :: 0 <= j < |u| && Off(u, j) !in seen ==> On(u, i).tick <= Off(u, j).tick
    ensures Inv(u, seen + [On(u, i)], Step(u, head, st, On(u, i)))
  {
    var n := u[i];
    var x := On(u, i);
    var seen' := seen + [x];
    NoteTicks(n);
    var st' := Step(u, head, st, x);
    assert st' == NoteOn(st, n.pitch, n.velocity, x.tick as real / 480.0);
    assert Off(u, i) !in seen;
    forall j | 0 <= j < |u| && On(u, j) in seen' && Off(u, j) !in seen' ensures PendingAs(st', u[j]) {
      if j != i {
        assert On(u, j) in seen;
        NoteTicks(u[j]);
        ApartIfSamePitch(u, i, j);
      }
    }
    ClosedSame(u, seen, x, |u|);
  }

  /** A Note-Off read when every event before it has a tick no later, and
      every unread Note-On or Note-Off a tick no earlier, closes its note
      and emits a note that sounds like it. */
  lemma OffStep(u: seq<Note>, head: seq<int>, seen: seq<Timed<Tag>>, st: DecodeState, i: nat)
    requires Clean(u) && i < |u|
    requires Inv(u, seen, st)
    requires Off(u, i) !in seen
    requires forall y :: y in seen ==> y.tick <= Off(u, i).tick
    requires forall j :: 0 <= j < |u| && On(u, j) !in seen ==> Off(u, i).tick <= On(u, j).tick
    requires forall j :: 0 <= j < |u| && Off(u, j) !in seen ==> Off(u, i).tick <= Off(u, j).tick
    ensures Inv(u, seen + [Off(u, i)], Step(u, head, st, Off(u, i)))
  {
    var n := u[i];
    var x := Off(u, i);
    var seen' := seen + [x];
    NoteTicks(n);
    assert On(u, i) in seen;
    assert PendingAs(st, n);
    var time := x.tick as real / 480.0;
    var st' := Step(u, head, st, x);
    assert st' == CloseNote(st, n.pitch, time);
    var k := |st.notes|;
    assert st'.notes == st.notes + [st'.notes[k]];
    assert SoundOf(st'.notes[k]) == SoundOf(n);
    SoundsSnoc(st.notes, st'.notes[k]);
    forall j | 0 <= j < |u| && On(u, j) in seen' && Off(u, j) !in seen' ensures PendingAs(st', u[j]) {
      assert j != i && On(u, j) in seen && Off(u, j) !in seen;
      NoteTicks(u[j]);
      ApartIfSamePitch(u, i, j);
    }
    ClosedAdd(u, seen, i, |u|);
  }

  // ----- walking the sorted schedule -----

  /** A sorted arrangement of the tags without repeats, each with its
      origin's tick, holding every note's Note-On and Note-Off. */
  ghost predicate Arranged(u: seq<Note>, s: seq<Timed<Tag>>) {
    && Sorted(s) && NoDup(s)
    && (forall x :: x in s ==> ValidTag(u, x))
    && (forall j :: 0 <= j < |u| ==> On(u, j) in s && Off(u, j) in s)
  }

  /** In a sorted list without repeats, entry `m` is not among the entries
      before it, whose ticks are no later, and every entry not before it
      has a tick no earlier. */
  lemma Frontier<T>(s: seq<Timed<T>>, m: nat)
    requires Sorted(s) && NoDup(s) && m < |s|
    ensures s[m] !in s[..m]
    ensures forall y :: y in s[..m] ==> y.tick <= s[m].tick
    ensures forall y :: y in s && y !in s[..m] ==> s[m].tick <= y.tick
  {
    forall k | 0 <= k < m ensures s[..m][k] == s[k] && s[k] != s[m] && s[k].tick <= s[m].tick {
    }
    forall y | y in s && y !in s[..m] ensures s[m].tick <= y.tick {
      var k :| 0 <= k < |s| && s[k] == y;
      assert m <= k;
    }
  }

  /** The invariant holds after every prefix of an arranged schedule. */
  lemma {:induction false} Walk(u: seq<Note>, head: seq<int>, s: seq<Timed<Tag>>, m: nat)
    requires Clean(u) && IsSetTempo(head) && Arranged(u, s) && m <= |s|
    ensures Inv(u, s[..m], Fold(Initial(), MapItems(s[..m], Items(u, head))))
    decreases m
  {
    var f := Items(u, head);
    if m == 0 {
      assert s[..0] == [];
      assert MapItems([], f) == [];
      ClosedEmpty(u, |u|);
    } else {
      Walk(u, head, s, m - 1);
      var seen := s[..m - 1];
      var x := s[m - 1];
      assert s[..m] == seen + [x];
      var st := Fold(Initial(), MapItems(seen, f));
      MapSnoc(seen, x, f);
      FoldSnoc(Initial(), MapItems(seen, f), Timed(x.tick, f(x.item)));
      assert Fold(Initial(), MapItems(s[..m], f)) == Step(u, head, st, x);
      Frontier(s, m - 1);
      assert x in s;
      WalkStep(u, head, s, seen, st, x);
    }
  }

  /** One step of the walk, by the kind of event read. */
  lemma WalkStep(u: seq<Note>, head: seq<int>, s: seq<Timed<Tag>>, seen: seq<Timed<Tag>>,
                 st: DecodeState, x: Timed<Tag>)
    requires Clean(u) && IsSetTempo(head) && Arranged(u, s)
    requires x in s && x !in seen && Inv(u, seen, st)
    requires forall y :: y in seen ==> y.tick <= x.tick
    requires forall y :: y in s && y !in seen ==> x.tick <= y.tick
    ensures Inv(u, seen + [x], Step(u, head, st, x))
  {
    assert ValidTag(u, x);
    match x.item
    case TempoTag =>
      TempoStep(u, head, seen, st, x);
    case OnTag(i) =>
      forall j | 0 <= j < |u| && Off(u, j) !in seen ensures x.tick <= Off(u, j).tick {
        assert Off(u, j) in s;
      }
      OnStep(u, head, seen, st, i);
    case OffTag(i) =>
      forall j | 0 <= j < |u| && Off(u, j) !in seen ensures x.tick <= Off(u, j).tick {
        assert Off(u, j) in s;
      }
      forall j | 0 <= j < |u| && On(u, j) !in seen ensures x.tick <= On(u, j).tick {
        assert On(u, j) in s;
      }
      OffStep(u, head, seen, st, i);
  }

  /** Walking the whole arranged schedule emits every note once. */
  lemma WalkAll(u: seq<Note>, head: seq<int>, s: seq<Timed<Tag>>)
    requires Clean(u) && IsSetTempo(head) && Arranged(u, s)
    ensures multiset(Sounds(Fold(Initial(), MapItems(s, Items(u, head))).notes)) == multiset(Sounds(u))
  {
    Walk(u, head, s, |s|);
    assert s[..|s|] == s;
    ClosedAll(u, s, |u|);
    assert u[..|u|] == u;
  }

  // ----- the schedule the encoder writes -----

  /** Without repeats, every element occurs at most once. */
  lemma {:induction false} NoDupCounts<T>(s: seq<T>)
    requires NoDup(s)
    ensures forall x :: multiset(s)[x] <= 1
    decreases |s|
  {
    if |s| > 0 {
      var init := s[..|s| - 1];
      var last := s[|s| - 1];
      forall a, b | 0 <= a < b < |init| ensures init[a] != init[b] {
        assert init[a] == s[a] && init[b] == s[b];
      }
      NoDupCounts(init);
      forall k | 0 <= k < |init| ensures init[k] != last {
        assert init[k] == s[k];
      }
      assert s == init + [last];
    }
  }

  /** An element occurring at most once cannot stand at two positions. */
  lemma CountsNoDup<T>(s: seq<T>)
    requires forall x :: multiset(s)[x] <= 1
    ensures NoDup(s)
  {
    forall a, b | 0 <= a < b < |s| ensures s[a] != s[b] {
      assert s == s[..b] + s[b..];
      assert s[..b][a] == s[a];
      assert s[b..][0] == s[b];
      assert multiset(s)[s[b]] == multiset(s[..b])[s[b]] + multiset(s[b..])[s[b]];
    }
  }

  /** The sorted tags are an arrangement. */
  lemma SortedTags(u: seq<Note>)
    ensures Arranged(u, SortByTick(Tagged(u)))
  {
    var tags := Tagged(u);
    var s := SortByTick(tags);
    TaggedFacts(u);
    SortSorted(tags);
    NoDupCounts(tags);
    CountsNoDup(s);
    forall x | x in s ensures x in tags {
      assert multiset(s)[x] > 0;
    }
    forall j | 0 <= j < |u| ensures On(u, j) in s && Off(u, j) in s {
      assert multiset(tags)[On(u, j)] > 0 && multiset(tags)[Off(u, j)] > 0;
    }
  }

  /** The encoder's first event is a Set Tempo meta-event. */
  lemma TempoIsSetTempo(tempo: real)
    requires tempo != 0.0
    ensures IsSetTempo(TempoEvent(tempo).item)
  {
    var item := TempoEvent(tempo).item;
    assert item[0] == item[..3][0] && item[1] == item[..3][1] && item[2] == item[..3][2];
    assert item[3] == item[3..][0] && item[4] == item[3..][1] && item[5] == item[3..][2];
  }

  /** The event a tag stands for is one the encoder can write. */
  lemma TagEncodable(u: seq<Note>, head: seq<int>, x: Timed<Tag>)
    requires Clean(u) && IsSetTempo(head) && ValidTag(u, x)
    ensures Encodable(Timed(x.tick, ItemOf(u, head, x.item)))
  {
    match x.item
    case TempoTag =>
    case OnTag(i) =>
      NoteTicks(u[i]);
    case OffTag(i) =>
      NoteTicks(u[i]);
  }

  /** The schedule is the sorted tags rewritten to their messages, then End
      of Track. */
  lemma ScheduleTags(notes: seq<Note>, tempo: real)
    requires tempo != 0.0
    ensures var u := Unmuted(notes);
      var r := Schedule(notes, tempo);
      r[..|r| - 1] == MapItems(SortByTick(Tagged(u)), Items(u, TempoEvent(tempo).item))
  {
    var u := Unmuted(notes);
    TaggedItems(notes, tempo);
    SortMap(Tagged(u), Items(u, TempoEvent(tempo).item));
  }

  /** The events the tags of an arrangement stand for can be written. */
  lemma MappedEncodable(u: seq<Note>, head: seq<int>, s: seq<Timed<Tag>>)
    requires Clean(u) && IsSetTempo(head)
    requires forall x :: x in s ==> ValidTag(u, x)
    ensures forall e :: e in MapItems(s, Items(u, head)) ==> Encodable(e)
  {
    var r := MapItems(s, Items(u, head));
    forall k | 0 <= k < |r| ensures Encodable(r[k]) {
      assert s[k] in s;
      TagEncodable(u, head, s[k]);
    }
  }

  /** Every event of an exportable roll's schedule can be written. */
  lemma ScheduleEncodable(notes: seq<Note>, tempo: real)
    requires tempo != 0.0 && Clean(Unmuted(notes))
    ensures forall e :: e in Schedule(notes, tempo) ==> Encodable(e)
  {
    var u := Unmuted(notes);
    var r := Schedule(notes, tempo);
    var body := r[..|r| - 1];
    ScheduleTags(notes, tempo);
    SortedTags(u);
    TempoIsSetTempo(tempo);
    MappedEncodable(u, TempoEvent(tempo).item, SortByTick(Tagged(u)));
    assert body[|body| - 1] in body;
    assert r == body + [r[|r| - 1]];
  }

  /** The ticks of an exportable roll lie in the encoder's range. */
  lemma ExportableInRange(notes: seq<Note>)
    requires Clean(Unmuted(notes))
    ensures NotesInRange(notes)
  {
    var u := Unmuted(notes);
    forall n | n in notes && !n.muted
      ensures TickInRange(TickOf(n.startTime)) && TickInRange(TickOf(n.startTime + n.duration))
    {
      assert n in u;
      var k :| 0 <= k < |u| && u[k] == n;
      NoteTicks(n);
    }
  }

  /** Exporting a roll and importing the file gives back the sounds of its
      unmuted notes, each once: pitch, velocity, start and duration survive,
      in the decoder's order rather than the roll's. */
  lemma RoundTrip(notes: seq<Note>, tempo: real)
    requires tempo != 0.0 && Exportable(notes)
    ensures NotesInRange(notes)
    ensures ReadHeader(CreateMidiFile(notes, tempo)) == Header(480, 14)
    ensures multiset(Sounds(ParseMidiFile(CreateMidiFile(notes, tempo)))) == multiset(Sounds(Unmuted(notes)))
  {
    var u := Unmuted(notes);
    var head := TempoEvent(tempo).item;
    ExportableInRange(notes);
    var r := Schedule(notes, tempo);
    ScheduleEncodable(notes, tempo);
    ScheduleSorted(notes, tempo);
    DecodeEncodedFile(r);
    assert CreateMidiFile(notes, tempo) == FileOf(r);
    FoldSchedule(notes, tempo);
    SortedTags(u);
    TempoIsSetTempo(tempo);
    WalkAll(u, head, SortByTick(Tagged(u)));
  }

  /** End of Track changes nothing: decoding the schedule is walking the
      sorted tags. */
  lemma FoldSchedule(notes: seq<Note>, tempo: real)
    requires tempo != 0.0
    ensures var u := Unmuted(notes);
      Fold(Initial(), Schedule(notes, tempo))
        == Fold(Initial(), MapItems(SortByTick(Tagged(u)), Items(u, TempoEvent(tempo).item)))
  {
    var r := Schedule(notes, tempo);
    var body := r[..|r| - 1];
    assert r == body + [r[|r| - 1]];
    FoldSnoc(Initial(), body, r[|r| - 1]);
    ScheduleTags(notes, tempo);
  }
}
