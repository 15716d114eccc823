/**
 * Newest-first ordering of a working set:
 * `combined.sort((a, b) => b.timestamp - a.timestamp)`.
 * JavaScript's sort is stable, so entries with equal timestamps keep their
 * relative order. The model sorts by stable insertion; `StableOrderUnique`
 * shows that every stable newest-first sort gives the same sequence, so the
 * choice of algorithm does not matter.
 */
module Ordering {
  import opened Seqs
  import opened Messages

  /** Non-increasing timestamps from index 0. */
  predicate NewestFirst(s: seq<Message>)
  {
    forall i, j :: 0 <= i < j < |s| ==> s[i].timestamp >= s[j].timestamp
  }

  function HasTime(t: int): Message -> bool
  {
    (m: Message) => m.timestamp == t
  }

  /** The entries stamped `t`, in their order in `s`: what a stable sort must preserve. */
  function AtTime(s: seq<Message>, t: int): seq<Message>
  {
    Filter(s, HasTime(t))
  }

  /** Puts `x` before the first entry that is not newer than it. */
  function Insert(x: Message, r: seq<Message>): seq<Message>
  {
    if r == [] || x.timestamp >= r[0].timestamp then [x] + r
    else [r[0]] + Insert(x, r[1..])
  }

  function SortNewestFirst(s: seq<Message>): seq<Message>
  {
    if s == [] then [] else Insert(s[0], SortNewestFirst(s[1..]))
  }

  lemma TailNewestFirst(s: seq<Message>)
    requires s != [] && NewestFirst(s)
    ensures NewestFirst(s[1..])
    ensures forall m :: m in s[1..] ==> m.timestamp <= s[0].timestamp
  {
    forall i, j | 0 <= i < j < |s| - 1 ensures s[1..][i].timestamp >= s[1..][j].timestamp {
      assert s[1..][i] == s[i + 1] && s[1..][j] == s[j + 1];
    }
  }

  /** Prepending an entry no older than every entry keeps newest-first order. */
  lemma ConsNewestFirst(x: Message, r: seq<Message>)
    requires NewestFirst(r)
    requires forall m :: m in r ==> m.timestamp <= x.timestamp
    ensures NewestFirst([x] + r)
  {
    forall i, j | 0 <= i < j < |r| + 1
      ensures ([x] + r)[i].timestamp >= ([x] + r)[j].timestamp
    {
      assert ([x] + r)[j] == r[j - 1];
      if i > 0 {
        assert ([x] + r)[i] == r[i - 1];
      }
    }
  }

  lemma {:induction false} InsertMultiset(x: Message, r: seq<Message>)
    ensures multiset(Insert(x, r)) == multiset(r) + multiset{x}
    decreases |r|
  {
    if !(r == [] || x.timestamp >= r[0].timestamp) {
      InsertMultiset(x, r[1..]);
      assert r == [r[0]] + r[1..];
    }
  }

  lemma {:induction false} InsertNewestFirst(x: Message, r: seq<Message>)
    requires NewestFirst(r)
    ensures NewestFirst(Insert(x, r))
    decreases |r|
  {
    if r == [] || x.timestamp >= r[0].timestamp {
      forall m | m in r ensures m.timestamp <= x.timestamp {
        var k :| 0 <= k < |r| && r[k] == m;
      }
      ConsNewestFirst(x, r);
    } else {
      TailNewestFirst(r);
      InsertNewestFirst(x, r[1..]);
      InsertMultiset(x, r[1..]);
      var rest := Insert(x, r[1..]);
      forall m | m in rest ensures m.timestamp <= r[0].timestamp {
        assert m in multiset(rest);
      }
      ConsNewestFirst(r[0], rest);
    }
  }

  lemma {:induction false} InsertAtTime(x: Message, r: seq<Message>, t: int)
    ensures AtTime(Insert(x, r), t) == AtTime([x], t) + AtTime(r, t)
    decreases |r|
  {
    if r == [] || x.timestamp >= r[0].timestamp {
      FilterConcat([x], r, HasTime(t));
    } else {
      var rest := Insert(x, r[1..]);
      InsertAtTime(x, r[1..], t);
      FilterConcat([r[0]], rest, HasTime(t));
      FilterConcat([r[0]], r[1..], HasTime(t));
      AtTimeSingle(x, t);
      AtTimeSingle(r[0], t);
      // x is strictly older than r[0], so at most one of them is stamped t.
      SwapEmpty(AtTime([r[0]], t), AtTime([x], t), AtTime(r[1..], t));
      assert Insert(x, r) == [r[0]] + rest;
      assert [r[0]] + r[1..] == r;
    }
  }

  lemma AtTimeSingle(y: Message, t: int)
    ensures AtTime([y], t) == if y.timestamp == t then [y] else []
  {
    assert [y][1..] == [];
  }

  lemma SwapEmpty(a: seq<Message>, x: seq<Message>, r: seq<Message>)
    requires a == [] || x == []
    ensures a + (x + r) == x + (a + r)
  {
    if a == [] {
      assert a + (x + r) == x + r == x + (a + r);
    } else {
      assert a + (x + r) == a + r == x + (a + r);
    }
  }

  /**
   * The sort yields a newest-first permutation of its input that keeps the
   * input order among equal timestamps.
   */
  lemma {:induction false} SortCorrect(s: seq<Message>)
    ensures NewestFirst(SortNewestFirst(s))
    ensures multiset(SortNewestFirst(s)) == multiset(s)
    ensures forall t :: AtTime(SortNewestFirst(s), t) == AtTime(s, t)
  {
    SortOrdered(s);
    SortMultiset(s);
    forall t ensures AtTime(SortNewestFirst(s), t) == AtTime(s, t) {
      SortAtTime(s, t);
    }
  }

  lemma {:induction false} SortOrdered(s: seq<Message>)
    ensures NewestFirst(SortNewestFirst(s))
    decreases |s|
  {
    if s != [] {
      SortOrdered(s[1..]);
      InsertNewestFirst(s[0], SortNewestFirst(s[1..]));
    }
  }

  lemma {:induction false} SortMultiset(s: seq<Message>)
    ensures multiset(SortNewestFirst(s)) == multiset(s)
    decreases |s|
  {
    if s != [] {
      SortMultiset(s[1..]);
      InsertMultiset(s[0], SortNewestFirst(s[1..]));
      assert s == [s[0]] + s[1..];
    }
  }

  lemma {:induction false} SortAtTime(s: seq<Message>, t: int)
    ensures AtTime(SortNewestFirst(s), t) == AtTime(s, t)
    decreases |s|
  {
    if s != [] {
      SortAtTime(s[1..], t);
      InsertAtTime(s[0], SortNewestFirst(s[1..]), t);
      assert s == [s[0]] + s[1..];
      FilterConcat([s[0]], s[1..], HasTime(t));
    }
  }

  /** The first entry of a newest-first sequence is at least as new as every entry. */
  lemma FirstIsNewest(s: seq<Message>, m: Message)
    requires NewestFirst(s) && m in s
    ensures s[0].timestamp >= m.timestamp
  {
    var k :| 0 <= k < |s| && s[k] == m;
  }

  /** Some entry of a non-empty sequence has the first entry's timestamp. */
  lemma AtTimeOfFirst(s: seq<Message>)
    requires s != []
    ensures AtTime(s, s[0].timestamp) != []
  {
    assert s[0] in AtTime(s, s[0].timestamp);
  }

  /**
   * Two newest-first sequences that agree on the order of the entries at every
   * timestamp are equal: a stable descending sort has exactly one result.
   */
  lemma {:induction false} StableOrderUnique(a: seq<Message>, b: seq<Message>)
    requires NewestFirst(a) && NewestFirst(b)
    requires forall t :: AtTime(a, t) == AtTime(b, t)
    ensures a == b
    decreases |a| + |b|
  {
    if a == [] || b == [] {
      // The first entry of a non-empty one would be missing from the other.
      if a != [] {
        AtTimeOfFirst(a);
        assert false;
      } else if b != [] {
        AtTimeOfFirst(b);
        assert false;
      }
    } else {
      var ta := a[0].timestamp;
      assert a[0] in AtTime(b, ta);
      assert b[0] in AtTime(a, b[0].timestamp);
      FirstIsNewest(b, a[0]);
      FirstIsNewest(a, b[0]);
      assert a == [a[0]] + a[1..];
      assert b == [b[0]] + b[1..];
      FilterConcat([a[0]], a[1..], HasTime(ta));
      FilterConcat([b[0]], b[1..], HasTime(ta));
      assert a[0] == AtTime(a, ta)[0] == AtTime(b, ta)[0] == b[0];
      forall t ensures AtTime(a[1..], t) == AtTime(b[1..], t) {
        FilterConcat([a[0]], a[1..], HasTime(t));
        FilterConcat([b[0]], b[1..], HasTime(t));
        var head := AtTime([a[0]], t);
        assert AtTime(a[1..], t) == AtTime(a, t)[|head|..];
        assert AtTime(b[1..], t) == AtTime(b, t)[|head|..];
      }
      TailNewestFirst(a);
      TailNewestFirst(b);
      StableOrderUnique(a[1..], b[1..]);
    }
  }

  /** Any newest-first, per-timestamp order-preserving arrangement of `s` is `SortNewestFirst(s)`. */
  lemma SortUnique(s: seq<Message>, r: seq<Message>)
    requires NewestFirst(r)
    requires forall t :: AtTime(r, t) == AtTime(s, t)
    ensures r == SortNewestFirst(s)
  {
    SortCorrect(s);
    StableOrderUnique(r, SortNewestFirst(s));
  }

  /** Dropping entries keeps a newest-first sequence newest-first. */
  lemma {:induction false} FilterNewestFirst(s: seq<Message>, p: Message -> bool)
    requires NewestFirst(s)
    ensures NewestFirst(Filter(s, p))
    decreases |s|
  {
    if s != [] {
      TailNewestFirst(s);
      FilterNewestFirst(s[1..], p);
      if p(s[0]) {
        ConsNewestFirst(s[0], Filter(s[1..], p));
      }
    }
  }
}
