/** The ordering step of the encoder, `events.sort((a, b) => a.tick - b.tick)`.
    ECMAScript requires `Array.prototype.sort` to be stable, so the model is
    a stable sort by tick: an insertion sort that puts each element after every
    earlier one whose tick is not larger. Sorted, a permutation and stable
    together determine the result, so any stable algorithm agrees with it. */
module StableSort {

  /** An item scheduled at a tick. */
  datatype Timed<T> = Timed(tick: int, item: T)

  ghost predicate Sorted<T>(s: seq<Timed<T>>) {
    forall i, j :: 0 <= i < j < |s| ==> s[i].tick <= s[j].tick
  }

  /** The elements at tick `t`, in their order in `s`. */
  function AtTick<T>(s: seq<Timed<T>>, t: int): seq<Timed<T>> {
    if |s| == 0 then []
    else AtTick(s[..|s| - 1], t) + (if s[|s| - 1].tick == t then [s[|s| - 1]] else [])
  }

  /** Place `e` after the last element whose tick is at most its own,
      scanning from the back. */
  function Insert<T>(s: seq<Timed<T>>, e: Timed<T>): (r: seq<Timed<T>>)
    ensures multiset(r) == multiset(s) + multiset{e}
    ensures |r| == |s| + 1
  {
    if |s| == 0 then [e]
    else if s[|s| - 1].tick <= e.tick then s + [e]
    else
      assert s == s[..|s| - 1] + [s[|s| - 1]];
      Insert(s[..|s| - 1], e) + [s[|s| - 1]]
  }

  /** Inserting into a sorted sequence keeps it sorted. */
  lemma {:induction false} InsertSorted<T>(s: seq<Timed<T>>, e: Timed<T>)
    requires Sorted(s)
    ensures Sorted(Insert(s, e))
    decreases |s|
  {
    if |s| > 0 && s[|s| - 1].tick > e.tick {
      var last := s[|s| - 1];
      var rest := Insert(s[..|s| - 1], e);
      InsertSorted(s[..|s| - 1], e);
      assert s == s[..|s| - 1] + [last];
      BoundedBy(s[..|s| - 1], e, rest, last.tick);
      SnocSorted(rest, last);
    }
  }

  /** Every element of a permutation of `s` and `e` is bounded as they are. */
  lemma BoundedBy<T>(s: seq<Timed<T>>, e: Timed<T>, r: seq<Timed<T>>, bound: int)
    requires multiset(r) == multiset(s) + multiset{e}
    requires e.tick <= bound
    requires forall i :: 0 <= i < |s| ==> s[i].tick <= bound
    ensures forall i :: 0 <= i < |r| ==> r[i].tick <= bound
  {
    forall i | 0 <= i < |r| ensures r[i].tick <= bound {
      assert r[i] in multiset(r);
    }
  }

  lemma SnocSorted<T>(s: seq<Timed<T>>, x: Timed<T>)
    requires Sorted(s)
    requires forall i :: 0 <= i < |s| ==> s[i].tick <= x.tick
    ensures Sorted(s + [x])
  {
  }

  function SortByTick<T>(s: seq<Timed<T>>): (r: seq<Timed<T>>)
    ensures multiset(r) == multiset(s)
    ensures |r| == |s|
  {
    if |s| == 0 then []
    else
      assert s == s[..|s| - 1] + [s[|s| - 1]];
      Insert(SortByTick(s[..|s| - 1]), s[|s| - 1])
  }

  /** The result is ordered by tick. */
  lemma {:induction false} SortSorted<T>(s: seq<Timed<T>>)
    ensures Sorted(SortByTick(s))
    decreases |s|
  {
    if |s| > 0 {
      SortSorted(s[..|s| - 1]);
      InsertSorted(SortByTick(s[..|s| - 1]), s[|s| - 1]);
    }
  }

  lemma {:induction false} InsertStable<T>(s: seq<Timed<T>>, e: Timed<T>, t: int)
    ensures AtTick(Insert(s, e), t) == AtTick(s, t) + (if e.tick == t then [e] else [])
    decreases |s|
  {
    if |s| == 0 {
      AtTickSnoc([], e, t);
    } else if s[|s| - 1].tick <= e.tick {
      AtTickSnoc(s, e, t);
    } else {
      var last := s[|s| - 1];
      var init := s[..|s| - 1];
      var rest := Insert(init, e);
      assert Insert(s, e) == rest + [last];
      assert s == init + [last];
      InsertStable(init, e, t);
      AtTickSnoc(rest, last, t);
      AtTickSnoc(init, last, t);
      if e.tick == t {
        assert AtTick(Insert(s, e), t) == AtTick(init, t) + [e];
        assert AtTick(s, t) == AtTick(init, t);
      } else {
        assert AtTick(Insert(s, e), t) == AtTick(s, t);
      }
    }
  }

  lemma AtTickSnoc<T>(s: seq<Timed<T>>, x: Timed<T>, t: int)
    ensures AtTick(s + [x], t) == AtTick(s, t) + (if x.tick == t then [x] else [])
  {
    assert (s + [x])[..|s|] == s;
  }

  /** The first element at tick `t`, when `s` starts with one. */
  lemma {:induction false} FirstAtTick<T>(s: seq<Timed<T>>, t: int)
    requires |s| > 0 && s[0].tick == t
    ensures |AtTick(s, t)| > 0 && AtTick(s, t)[0] == s[0]
    decreases |s|
  {
    if |s| > 1 {
      var init := s[..|s| - 1];
      FirstAtTick(init, t);
      AtTickSnoc(init, s[|s| - 1], t);
      assert s == init + [s[|s| - 1]];
    }
  }

  /** Stability: elements with equal ticks keep their relative order. */
  lemma {:induction false} SortStable<T>(s: seq<Timed<T>>, t: int)
    ensures AtTick(SortByTick(s), t) == AtTick(s, t)
    decreases |s|
  {
    if |s| > 0 {
      SortStable(s[..|s| - 1], t);
      InsertStable(SortByTick(s[..|s| - 1]), s[|s| - 1], t);
    }
  }

  /** The items with their ticks kept. */
  function MapItems<T, U>(s: seq<Timed<T>>, f: T -> U): (r: seq<Timed<U>>)
    ensures |r| == |s|
    ensures forall i :: 0 <= i < |s| ==> r[i] == Timed(s[i].tick, f(s[i].item))
  {
    seq(|s|, i requires 0 <= i < |s| => Timed(s[i].tick, f(s[i].item)))
  }

  lemma {:induction false} InsertMap<T, U>(s: seq<Timed<T>>, e: Timed<T>, f: T -> U)
    ensures MapItems(Insert(s, e), f) == Insert(MapItems(s, f), Timed(e.tick, f(e.item)))
    decreases |s|
  {
    var g := Timed(e.tick, f(e.item));
    var ms := MapItems(s, f);
    if |s| == 0 {
      assert MapItems([e], f) == [g];
    } else if s[|s| - 1].tick <= e.tick {
      MapSnoc(s, e, f);
    } else {
      var init := s[..|s| - 1];
      var last := s[|s| - 1];
      var mlast := Timed(last.tick, f(last.item));
      InsertMap(init, e, f);
      assert Insert(ms, g) == Insert(MapItems(init, f), g) + [mlast] by {
        assert s == init + [last];
        MapSnoc(init, last, f);
        assert ms[..|ms| - 1] == MapItems(init, f);
      }
      assert MapItems(Insert(s, e), f) == MapItems(Insert(init, e), f) + [mlast] by {
        assert Insert(s, e) == Insert(init, e) + [last];
        MapSnoc(Insert(init, e), last, f);
      }
    }
  }

  lemma MapSorted<T, U>(s: seq<Timed<T>>, f: T -> U)
    requires Sorted(s)
    ensures Sorted(MapItems(s, f))
  {
    var ms := MapItems(s, f);
    forall i, j | 0 <= i < j < |ms| ensures ms[i].tick <= ms[j].tick {
      assert ms[i].tick == s[i].tick && ms[j].tick == s[j].tick;
    }
  }

  lemma MapSnoc<T, U>(s: seq<Timed<T>>, x: Timed<T>, f: T -> U)
    ensures MapItems(s + [x], f) == MapItems(s, f) + [Timed(x.tick, f(x.item))]
  {
    assert (s + [x])[..|s|] == s;
  }

  /** Sorting one more element is inserting it into the sorted rest. */
  lemma SortSnoc<T>(s: seq<Timed<T>>, x: Timed<T>)
    ensures SortByTick(s + [x]) == Insert(SortByTick(s), x)
  {
    assert (s + [x])[..|s|] == s;
  }

  /** The order depends on the ticks alone: sorting and then rewriting the
      items is sorting the rewritten items. */
  lemma {:induction false} SortMap<T, U>(s: seq<Timed<T>>, f: T -> U)
    ensures MapItems(SortByTick(s), f) == SortByTick(MapItems(s, f))
    decreases |s|
  {
    if |s| > 0 {
      var init := s[..|s| - 1];
      var last := s[|s| - 1];
      var g := Timed(last.tick, f(last.item));
      assert s == init + [last];
      calc {
        MapItems(SortByTick(s), f);
        MapItems(Insert(SortByTick(init), last), f);
        { InsertMap(SortByTick(init), last, f); }
        Insert(MapItems(SortByTick(init), f), g);
        { SortMap(init, f); }
        Insert(SortByTick(MapItems(init, f)), g);
        { SortSnoc(MapItems(init, f), g); }
        SortByTick(MapItems(init, f) + [g]);
        { MapSnoc(init, last, f); }
        SortByTick(MapItems(s, f));
      }
    }
  }
}
