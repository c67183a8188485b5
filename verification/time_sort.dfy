/** Ordering the merged descriptors by `time`. JavaScript's Array.prototype.sort
    is stable, so the model is a stable insertion sort; its partner is the
    characterisation of a stable sort: ascending, and the descriptors sharing
    any one time keep their relative order. */
module TimeSort {
  import opened LexOrder
  import opened Events

  /** Ascending by `time`: every adjacent pair is in order. */
  ghost predicate Sorted(s: seq<Descriptor>) {
    forall i, j | 0 <= i < j < |s| && j == i + 1 :: LexLe(s[i].time, s[j].time)
  }

  /** The descriptors of `s` whose time is exactly `t`, in their order in `s`. */
  function WithTime(s: seq<Descriptor>, t: string): seq<Descriptor> {
    if |s| == 0 then []
    else (if s[0].time == t then [s[0]] else []) + WithTime(s[1..], t)
  }

  /** Puts `x` before the first element it does not sort after. */
  function Insert(x: Descriptor, ys: seq<Descriptor>): (r: seq<Descriptor>)
    ensures |r| == |ys| + 1
    ensures multiset(r) == multiset(ys) + multiset{x}
    ensures r[0] == x || (|ys| > 0 && r[0] == ys[0])
    ensures Sorted(ys) ==> Sorted(r)
  {
    if |ys| == 0 then [x]
    else if LexLe(x.time, ys[0].time) then [x] + ys
    else
      var rest := Insert(x, ys[1..]);
      LexLeFlip(x.time, ys[0].time);
      assert ys == [ys[0]] + ys[1..];
      [ys[0]] + rest
  }

  /** Insertion sort by `time`. */
  function Sort(s: seq<Descriptor>): (r: seq<Descriptor>)
    ensures |r| == |s|
    ensures multiset(r) == multiset(s)
    ensures Sorted(r)
  {
    if |s| == 0 then []
    else
      assert s == [s[0]] + s[1..];
      Insert(s[0], Sort(s[1..]))
  }

  lemma {:induction false} WithTimeConcat(a: seq<Descriptor>, b: seq<Descriptor>, t: string)
    ensures WithTime(a + b, t) == WithTime(a, t) + WithTime(b, t)
  {
    if |a| == 0 {
      assert a + b == b;
    } else {
      var h := if a[0].time == t then [a[0]] else [];
      assert a == [a[0]] + a[1..];
      ConcatAssoc([a[0]], a[1..], b);
      WithTimeCons(a[0], a[1..] + b, t);
      WithTimeCons(a[0], a[1..], t);
      WithTimeConcat(a[1..], b, t);
      ConcatAssoc(h, WithTime(a[1..], t), WithTime(b, t));
    }
  }

  /** The group of `t` in `[e] + s`. */
  lemma WithTimeCons(e: Descriptor, s: seq<Descriptor>, t: string)
    ensures WithTime([e] + s, t) == (if e.time == t then [e] else []) + WithTime(s, t)
  {
    assert ([e] + s)[0] == e;
    assert ([e] + s)[1..] == s;
  }

  /** Where `x` sorts at or before the head, it goes in front. */
  lemma InsertFront(x: Descriptor, ys: seq<Descriptor>)
    requires |ys| == 0 || LexLe(x.time, ys[0].time)
    ensures Insert(x, ys) == [x] + ys
  {
  }

  /** Where `x` sorts after the head, the head stays first. */
  lemma InsertSkip(x: Descriptor, ys: seq<Descriptor>)
    requires |ys| > 0 && !LexLe(x.time, ys[0].time)
    ensures Insert(x, ys) == [ys[0]] + Insert(x, ys[1..])
  {
  }

  lemma {:induction false} WithTimeMembers(s: seq<Descriptor>, t: string, e: Descriptor)
    ensures e in WithTime(s, t) <==> e in s && e.time == t
  {
    if |s| > 0 {
      WithTimeMembers(s[1..], t, e);
      assert s == [s[0]] + s[1..];
    }
  }

  /** Inserting `x` adds it at the front of its own time group and touches no
      other group. */
  lemma {:induction false} InsertStable(x: Descriptor, ys: seq<Descriptor>, t: string)
    ensures WithTime(Insert(x, ys), t) == (if x.time == t then [x] else []) + WithTime(ys, t)
  {
    if |ys| == 0 || LexLe(x.time, ys[0].time) {
      InsertFront(x, ys);
      WithTimeCons(x, ys, t);
    } else {
      LexLeFlip(x.time, ys[0].time);
      var rest := Insert(x, ys[1..]);
      InsertSkip(x, ys);
      InsertStable(x, ys[1..], t);
      WithTimeCons(ys[0], rest, t);
      WithTimeCons(ys[0], ys[1..], t);
      assert ys == [ys[0]] + ys[1..];
      if x.time == t {
        assert ys[0].time != t;
        assert WithTime(Insert(x, ys), t) == WithTime(rest, t) == [x] + WithTime(ys[1..], t);
        assert WithTime(ys, t) == WithTime(ys[1..], t);
      } else {
        assert WithTime(rest, t) == WithTime(ys[1..], t);
      }
    }
  }

  /** The sort is stable: for every time, the descriptors with that time
      appear in the output in their input order. */
  lemma {:induction false} SortStable(s: seq<Descriptor>, t: string)
    ensures WithTime(Sort(s), t) == WithTime(s, t)
  {
    if |s| > 0 {
      SortStable(s[1..], t);
      InsertStable(s[0], Sort(s[1..]), t);
    }
  }

  /** In an ascending sequence the first time is the least. */
  lemma {:induction false} SortedHeadLeast(s: seq<Descriptor>, e: Descriptor)
    requires Sorted(s) && e in s
    ensures LexLe(s[0].time, e.time)
  {
    if s[0] == e {
      LexLeReflexive(e.time);
    } else {
      assert e in s[1..];
      SortedHeadLeast(s[1..], e);
      LexLeTransitive(s[0].time, s[1].time, e.time);
    }
  }

  /** Ascending means every pair is in order, not only adjacent ones. */
  lemma {:induction false} SortedAllPairs(s: seq<Descriptor>)
    requires Sorted(s)
    ensures forall i, j | 0 <= i < j < |s| :: LexLe(s[i].time, s[j].time)
  {
    forall i, j | 0 <= i < j < |s|
      ensures LexLe(s[i].time, s[j].time)
    {
      SortedHeadLeast(s[i..], s[j]);
      assert s[i..][0] == s[i];
    }
  }

  /** An ascending sequence is fixed by its time groups: two ascending
      sequences that agree on every group are equal. */
  lemma {:induction false} StableSortUnique(r: seq<Descriptor>, r': seq<Descriptor>)
    requires Sorted(r) && Sorted(r')
    requires forall t :: WithTime(r, t) == WithTime(r', t)
    ensures r == r'
  {
    if |r| == 0 && |r'| == 0 {
      return;
    }
    if |r| == 0 || |r'| == 0 {
      var e := if |r| > 0 then r[0] else r'[0];
      WithTimeMembers(r, e.time, e);
      WithTimeMembers(r', e.time, e);
      assert false;
    }
    var t0, t0' := r[0].time, r'[0].time;
    WithTimeMembers(r, t0, r[0]);
    WithTimeMembers(r', t0, r[0]);
    SortedHeadLeast(r', r[0]);
    WithTimeMembers(r', t0', r'[0]);
    WithTimeMembers(r, t0', r'[0]);
    SortedHeadLeast(r, r'[0]);
    LexLeAntisymmetric(t0, t0');
    assert r[0] == WithTime(r, t0)[0] == WithTime(r', t0)[0] == r'[0];
    assert r == [r[0]] + r[1..];
    assert r' == [r[0]] + r'[1..];
    forall t
      ensures WithTime(r[1..], t) == WithTime(r'[1..], t)
    {
      WithTimeCons(r[0], r[1..], t);
      WithTimeCons(r[0], r'[1..], t);
      var w, w' := WithTime(r[1..], t), WithTime(r'[1..], t);
      if t0 == t {
        assert [r[0]] + w == [r[0]] + w';
        assert w == ([r[0]] + w)[1..];
        assert w' == ([r[0]] + w')[1..];
      } else {
        assert [] + w == [] + w';
        assert w == [] + w;
        assert w' == [] + w';
      }
    }
    StableSortUnique(r[1..], r'[1..]);
  }

  /** The insertion sort is THE stable sort: any ascending sequence that keeps
      every time group of `s` in its input order is `Sort(s)`. */
  lemma SortCharacterized(s: seq<Descriptor>, r: seq<Descriptor>)
    requires Sorted(r)
    requires forall t :: WithTime(r, t) == WithTime(s, t)
    ensures r == Sort(s)
  {
    forall t
      ensures WithTime(r, t) == WithTime(Sort(s), t)
    {
      SortStable(s, t);
    }
    StableSortUnique(r, Sort(s));
  }

  /** Sorting an ascending sequence changes nothing; in particular sorting
      twice is sorting once. */
  lemma SortKeepsAscending(s: seq<Descriptor>)
    requires Sorted(s)
    ensures Sort(s) == s
  {
    SortCharacterized(s, s);
  }

  /** One step of the scan: an element `x` sorts after moves into the kept
      prefix. */
  lemma InsertScanStep(x: Descriptor, ys: seq<Descriptor>, j: nat)
    requires j < |ys| && !LexLe(x.time, ys[j].time)
    requires Insert(x, ys) == ys[..j] + Insert(x, ys[j..])
    ensures Insert(x, ys) == ys[..j + 1] + Insert(x, ys[j + 1..])
  {
    SplitAt(ys, j);
    InsertSkip(x, [ys[j]] + ys[j + 1..]);
    ConcatAssoc(ys[..j], [ys[j]], Insert(x, ys[j + 1..]));
  }

  /** End of the scan: `x` goes at the current position. */
  lemma InsertScanDone(x: Descriptor, ys: seq<Descriptor>, j: nat)
    requires j <= |ys| && (j == |ys| || LexLe(x.time, ys[j].time))
    requires Insert(x, ys) == ys[..j] + Insert(x, ys[j..])
    ensures Insert(x, ys) == ys[..j] + [x] + ys[j..]
  {
    var tail := ys[j..];
    assert j < |ys| ==> tail[0] == ys[j];
    InsertFront(x, tail);
  }

  lemma SplitAt<T>(s: seq<T>, j: nat)
    requires j < |s|
    ensures s[j..] == [s[j]] + s[j + 1..]
    ensures s[..j + 1] == s[..j] + [s[j]]
  {
  }

  lemma ConcatAssoc<T>(a: seq<T>, b: seq<T>, c: seq<T>)
    ensures a + (b + c) == (a + b) + c
  {
  }

  /** Imperative insertion of `x` into an ascending list: scan to the first
      element `x` sorts at or before, then splice. */
  method InsertByTime(x: Descriptor, ys: seq<Descriptor>) returns (r: seq<Descriptor>)
    ensures r == Insert(x, ys)
  {
    var j := 0;
    assert ys[..0] + ys[0..] == ys;
    while j < |ys| && !LexLe(x.time, ys[j].time)
      invariant 0 <= j <= |ys|
      invariant Insert(x, ys) == ys[..j] + Insert(x, ys[j..])
    {
      InsertScanStep(x, ys, j);
      j := j + 1;
    }
    InsertScanDone(x, ys, j);
    r := ys[..j] + [x] + ys[j..];
  }

  /** Imperative insertion sort, inserting from the back so that equal times
      keep their input order. */
  method SortByTime(s: seq<Descriptor>) returns (r: seq<Descriptor>)
    ensures r == Sort(s)
  {
    r := [];
    var i := |s|;
    while i > 0
      invariant 0 <= i <= |s|
      invariant r == Sort(s[i..])
    {
      i := i - 1;
      assert s[i..][1..] == s[i + 1..];
      r := InsertByTime(s[i], r);
    }
    assert s[0..] == s;
  }
}
