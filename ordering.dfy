/** `orderBy(['position'], ['asc'])`: a stable ascending sort of tasks by position. */
module Ordering {
  import opened Entities

  predicate SortedByPosition(ts: seq<Task>) {
    forall i, j | 0 <= i < j < |ts| :: ts[i].position <= ts[j].position
  }

  /** The tasks of `ts` whose position is `p`, in the order they have in `ts`. */
  function WithPosition(ts: seq<Task>, p: int): seq<Task> {
    if ts == [] then []
    else if ts[0].position == p then [ts[0]] + WithPosition(ts[1..], p)
    else WithPosition(ts[1..], p)
  }

  /** Puts `t` in front of the first task whose position is not below its own. */
  function Insert(t: Task, s: seq<Task>): seq<Task> {
    if s == [] || t.position <= s[0].position then [t] + s
    else [s[0]] + Insert(t, s[1..])
  }

  /** Insertion adds exactly `t` and keeps a sorted sequence sorted. */
  lemma {:induction false} InsertIsOrderedInsertion(t: Task, s: seq<Task>)
    ensures multiset(Insert(t, s)) == multiset(s) + multiset{t}
    ensures SortedByPosition(s) ==> SortedByPosition(Insert(t, s))
  {
    if s != [] && s[0].position < t.position {
      InsertIsOrderedInsertion(t, s[1..]);
      assert s == [s[0]] + s[1..];
      InsertAfterHead(s[0], t, s[1..], Insert(t, s[1..]));
    }
  }

  /** Putting `h` back in front keeps the order when `h` is not above anything that follows. */
  lemma InsertAfterHead(h: Task, t: Task, tail: seq<Task>, rest: seq<Task>)
    requires h.position < t.position
    requires multiset(rest) == multiset(tail) + multiset{t}
    requires SortedByPosition(tail) ==> SortedByPosition(rest)
    ensures SortedByPosition([h] + tail) ==> SortedByPosition([h] + rest)
  {
    if SortedByPosition([h] + tail) {
      forall x | x in tail ensures h.position <= x.position {
        var i :| 0 <= i < |tail| && tail[i] == x;
        assert ([h] + tail)[0] == h && ([h] + tail)[i + 1] == x;
      }
      assert SortedByPosition(tail) by {
        forall i, j | 0 <= i < j < |tail| ensures tail[i].position <= tail[j].position {
          assert ([h] + tail)[i + 1] == tail[i] && ([h] + tail)[j + 1] == tail[j];
        }
      }
      var r := [h] + rest;
      forall i, j | 0 <= i < j < |r| ensures r[i].position <= r[j].position {
        if i == 0 { assert r[j] in multiset(rest); } else { assert r[i] == rest[i - 1] && r[j] == rest[j - 1]; }
      }
    }
  }

  function SortByPosition(ts: seq<Task>): (r: seq<Task>)
    ensures SortedByPosition(r)
    ensures multiset(r) == multiset(ts)
    ensures |r| == |ts|
  {
    if ts == [] then []
    else
      assert ts == [ts[0]] + ts[1..];
      var rest := SortByPosition(ts[1..]);
      InsertIsOrderedInsertion(ts[0], rest);
      Insert(ts[0], rest)
  }

  lemma {:induction false} WithPositionMembers(ts: seq<Task>, p: int, x: Task)
    ensures x in WithPosition(ts, p) <==> x in ts && x.position == p
  {
    if ts != [] {
      WithPositionMembers(ts[1..], p, x);
      assert ts == [ts[0]] + ts[1..];
    }
  }

  lemma {:induction false} InsertWithPosition(t: Task, s: seq<Task>, p: int)
    ensures WithPosition(Insert(t, s), p) == if t.position == p then [t] + WithPosition(s, p) else WithPosition(s, p)
  {
    if s == [] || t.position <= s[0].position {
      assert ([t] + s)[1..] == s;
    } else {
      InsertWithPosition(t, s[1..], p);
      assert ([s[0]] + Insert(t, s[1..]))[1..] == Insert(t, s[1..]);
    }
  }

  /** Stability: for every position, the tasks holding it keep their relative order. */
  lemma {:induction false} SortKeepsTiesInOrder(ts: seq<Task>, p: int)
    ensures WithPosition(SortByPosition(ts), p) == WithPosition(ts, p)
  {
    if ts != [] {
      SortKeepsTiesInOrder(ts[1..], p);
      InsertWithPosition(ts[0], SortByPosition(ts[1..]), p);
    }
  }

  lemma FirstGroupNonEmpty(ts: seq<Task>)
    ensures ts != [] ==> WithPosition(ts, ts[0].position) != []
  {
  }

  /** A sorted sequence is determined by its per-position subsequences. */
  lemma {:induction false} SortedTiesDetermine(a: seq<Task>, b: seq<Task>)
    requires SortedByPosition(a) && SortedByPosition(b)
    requires forall p :: WithPosition(a, p) == WithPosition(b, p)
    ensures a == b
    decreases |a|
  {
    if a == [] || b == [] {
      // a non-empty side has a non-empty group at its first position, the other side none
      FirstGroupNonEmpty(a);
      FirstGroupNonEmpty(b);
    } else {
      SortedHeadsAgree(a, b);
      var p0 := a[0].position;
      forall p ensures WithPosition(a[1..], p) == WithPosition(b[1..], p) {
        if p == p0 {
          assert WithPosition(a, p) == [a[0]] + WithPosition(a[1..], p);
          assert WithPosition(b, p) == [b[0]] + WithPosition(b[1..], p);
          assert WithPosition(a[1..], p) == WithPosition(a, p)[1..];
          assert WithPosition(b[1..], p) == WithPosition(b, p)[1..];
        } else {
          assert WithPosition(a, p) == WithPosition(a[1..], p);
          assert WithPosition(b, p) == WithPosition(b[1..], p);
        }
      }
      SortedTiesDetermine(a[1..], b[1..]);
      assert a == [a[0]] + a[1..] && b == [b[0]] + b[1..];
    }
  }

  /** Two sorted sequences with the same tie groups start with the same task. */
  lemma SortedHeadsAgree(a: seq<Task>, b: seq<Task>)
    requires a != [] && b != []
    requires SortedByPosition(a) && SortedByPosition(b)
    requires forall p :: WithPosition(a, p) == WithPosition(b, p)
    ensures a[0] == b[0]
  {
    var pa, pb := a[0].position, b[0].position;
    WithPositionMembers(b, pa, a[0]);
    assert a[0] in WithPosition(a, pa);
    var i :| 0 <= i < |b| && b[i] == a[0];
    assert pb <= pa by { if i > 0 { assert b[0].position <= b[i].position; } }
    WithPositionMembers(a, pb, b[0]);
    assert b[0] in WithPosition(b, pb);
    var j :| 0 <= j < |a| && a[j] == b[0];
    assert pa <= pb by { if j > 0 { assert a[0].position <= a[j].position; } }
    assert WithPosition(a, pa)[0] == a[0];
    assert WithPosition(b, pa)[0] == b[0];
  }

  /** `SortByPosition` is the only sorted arrangement that keeps every group of equal
      positions in input order, i.e. it is the stable ascending sort. */
  lemma StableSortIsUnique(ts: seq<Task>, r: seq<Task>)
    requires SortedByPosition(r)
    requires forall p :: WithPosition(r, p) == WithPosition(ts, p)
    ensures r == SortByPosition(ts)
  {
    forall p ensures WithPosition(r, p) == WithPosition(SortByPosition(ts), p) {
      SortKeepsTiesInOrder(ts, p);
    }
    SortedTiesDetermine(r, SortByPosition(ts));
  }

  /** Positions [2, 1, 1, 3] in the order [a, b, c, d] sort to [b, c, a, d]. */
  lemma OrderExample(a: Task, b: Task, c: Task, d: Task)
    requires a.position == 2 && b.position == 1 && c.position == 1 && d.position == 3
    ensures SortByPosition([a, b, c, d]) == [b, c, a, d]
  {
    assert [a, b, c, d][1..] == [b, c, d];
    OrderExampleTail(b, c, d);
    OrderExampleInsert(a, b, c, d);
  }

  lemma OrderExampleTail(b: Task, c: Task, d: Task)
    requires b.position == 1 && c.position == 1 && d.position == 3
    ensures SortByPosition([b, c, d]) == [b, c, d]
  {
    assert [b, c, d][1..] == [c, d];
    assert [c, d][1..] == [d];
    assert [d][1..] == [];
    assert SortByPosition([d]) == [d];
    assert SortByPosition([c, d]) == [c, d];
  }

  lemma OrderExampleInsert(a: Task, b: Task, c: Task, d: Task)
    requires a.position == 2 && b.position == 1 && c.position == 1 && d.position == 3
    ensures Insert(a, [b, c, d]) == [b, c, a, d]
  {
    InsertStep(a, [d]);
    assert [c, d][1..] == [d];
    InsertStep(a, [c, d]);
    assert [b, c, d][1..] == [c, d];
    InsertStep(a, [b, c, d]);
  }

  /** One step of `Insert`. */
  lemma InsertStep(t: Task, s: seq<Task>)
    requires s != []
    ensures Insert(t, s) == if t.position <= s[0].position then [t] + s else [s[0]] + Insert(t, s[1..])
  {
  }
}
