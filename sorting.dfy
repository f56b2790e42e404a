/**
 * The order of the entries after `build` sorts them: `sort_by` with a
 * comparator that puts the newer entry first. Rust's `sort_by` is a stable
 * sort; it is modelled here by insertion sort, which is stable too, and
 * `StableSortUnique` shows that any stable sort with that comparator gives the
 * same sequence.
 */
module Sorting {
  import opened Entries

  /** Rust's `std::cmp::Ordering`. */
  datatype Ordering = Less | Equal | Greater

  /** `x.cmp(&y)` on durations. */
  function Cmp(x: int, y: int): Ordering {
    if x < y then Less else if x == y then Equal else Greater
  }

  /** The comparator of `build`: `b.modified - a.modified` compared with `a.modified - b.modified`. */
  function CompareNewestFirst(a: FileEntry, b: FileEntry): Ordering {
    Cmp(b.modified - a.modified, a.modified - b.modified)
  }

  /** The comparator puts `a` before `b` exactly when `a` is newer, and ties exactly equal instants. */
  lemma CompareMeansNewerFirst(a: FileEntry, b: FileEntry)
    ensures CompareNewestFirst(a, b) == Less <==> a.modified > b.modified
    ensures CompareNewestFirst(a, b) == Equal <==> a.modified == b.modified
    ensures CompareNewestFirst(a, b) == Greater <==> a.modified < b.modified
  {
  }

  /** Every adjacent pair has the newer (or equally new) entry first. */
  predicate NewestFirst(s: seq<FileEntry>) {
    forall i :: 0 <= i < |s| - 1 ==> s[i].modified >= s[i + 1].modified
  }

  /** Puts `x` before the first entry of `s` that it does not compare greater than. */
  function Insert(x: FileEntry, s: seq<FileEntry>): (r: seq<FileEntry>)
    ensures |r| == |s| + 1
    ensures r[0] == x || (s != [] && r[0] == s[0])
    decreases |s|
  {
    if s == [] || CompareNewestFirst(x, s[0]) != Greater then [x] + s
    else [s[0]] + Insert(x, s[1..])
  }

  /** The entries in the order `sort_by` leaves them. */
  function SortNewestFirst(s: seq<FileEntry>): (r: seq<FileEntry>)
    ensures |r| == |s|
    decreases |s|
  {
    if s == [] then [] else Insert(s[0], SortNewestFirst(s[1..]))
  }

  /** The subsequence of the entries stamped `t`, in their order. */
  function WithTime(s: seq<FileEntry>, t: int): seq<FileEntry>
    decreases |s|
  {
    if s == [] then []
    else (if s[0].modified == t then [s[0]] else []) + WithTime(s[1..], t)
  }

  /** Of two entries, the newer comes first. */
  lemma SortTwo(x: FileEntry, y: FileEntry)
    requires x.modified < y.modified
    ensures SortNewestFirst([x, y]) == [y, x]
  {
    assert [x, y][1..] == [y];
    assert SortNewestFirst([y]) == [y];
    assert Insert(x, [y]) == [y] + Insert(x, []);
  }

  // ---------------------------------------------------------------------------
  // Sorted

  lemma {:induction false} InsertNewestFirst(x: FileEntry, s: seq<FileEntry>)
    requires NewestFirst(s)
    ensures NewestFirst(Insert(x, s))
    decreases |s|
  {
    if s != [] && CompareNewestFirst(x, s[0]) == Greater {
      InsertNewestFirst(x, s[1..]);
      var r := Insert(x, s);
      var tail := Insert(x, s[1..]);
      assert r == [s[0]] + tail;
      assert s[1..] != [] ==> s[0].modified >= s[1].modified;
    }
  }

  /** After the sort every adjacent pair (a, b) has `a.modified >= b.modified`. */
  lemma {:induction false} SortIsNewestFirst(s: seq<FileEntry>)
    ensures NewestFirst(SortNewestFirst(s))
    decreases |s|
  {
    if s != [] {
      SortIsNewestFirst(s[1..]);
      InsertNewestFirst(s[0], SortNewestFirst(s[1..]));
    }
  }

  // ---------------------------------------------------------------------------
  // A permutation

  lemma {:induction false} InsertMultiset(x: FileEntry, s: seq<FileEntry>)
    ensures multiset(Insert(x, s)) == multiset(s) + multiset{x}
    decreases |s|
  {
    if s != [] && CompareNewestFirst(x, s[0]) == Greater {
      InsertMultiset(x, s[1..]);
      assert s == [s[0]] + s[1..];
    }
  }

  /** The sort neither adds, drops nor duplicates an entry. */
  lemma {:induction false} SortIsPermutation(s: seq<FileEntry>)
    ensures multiset(SortNewestFirst(s)) == multiset(s)
    decreases |s|
  {
    if s != [] {
      SortIsPermutation(s[1..]);
      InsertMultiset(s[0], SortNewestFirst(s[1..]));
      assert s == [s[0]] + s[1..];
    }
  }

  // ---------------------------------------------------------------------------
  // Stable

  lemma WithTimeCons(x: FileEntry, s: seq<FileEntry>, t: int)
    ensures WithTime([x] + s, t) == (if x.modified == t then [x] else []) + WithTime(s, t)
  {
    assert ([x] + s)[1..] == s;
  }

  /** When one of two prefixes is empty they can be swapped. */
  lemma SwapEmpty(a: seq<FileEntry>, b: seq<FileEntry>, w: seq<FileEntry>)
    requires a == [] || b == []
    ensures a + (b + w) == b + (a + w)
  {
  }

  lemma {:induction false} InsertWithTime(x: FileEntry, s: seq<FileEntry>, t: int)
    ensures WithTime(Insert(x, s), t) == (if x.modified == t then [x] else []) + WithTime(s, t)
    decreases |s|
  {
    if s == [] || CompareNewestFirst(x, s[0]) != Greater {
      assert Insert(x, s) == [x] + s;
      WithTimeCons(x, s, t);
    } else {
      var a, s1 := s[0], s[1..];
      var rest := Insert(x, s1);
      assert Insert(x, s) == [a] + rest;
      assert s == [a] + s1;
      var ha: seq<FileEntry> := if a.modified == t then [a] else [];
      var hx: seq<FileEntry> := if x.modified == t then [x] else [];
      var w1 := WithTime(s1, t);
      InsertWithTime(x, s1, t);
      WithTimeCons(a, rest, t);
      WithTimeCons(a, s1, t);
      assert WithTime(Insert(x, s), t) == ha + (hx + w1);
      assert WithTime(s, t) == ha + w1;
      SwapEmpty(ha, hx, w1);
    }
  }

  /** Entries with equal timestamps keep their load order: each group of equal instants is the same subsequence before and after. */
  lemma {:induction false} SortIsStable(s: seq<FileEntry>, t: int)
    ensures WithTime(SortNewestFirst(s), t) == WithTime(s, t)
    decreases |s|
  {
    if s != [] {
      SortIsStable(s[1..], t);
      InsertWithTime(s[0], SortNewestFirst(s[1..]), t);
    }
  }

  // ---------------------------------------------------------------------------
  // The only stable newest-first order

  lemma {:induction false} WithTimeMembers(s: seq<FileEntry>, t: int, e: FileEntry)
    ensures e in WithTime(s, t) <==> e in s && e.modified == t
    decreases |s|
  {
    if s != [] {
      WithTimeMembers(s[1..], t, e);
      assert s == [s[0]] + s[1..];
    }
  }

  lemma {:induction false} NewestFirstHead(s: seq<FileEntry>, e: FileEntry)
    requires NewestFirst(s) && e in s
    ensures e.modified <= s[0].modified
    decreases |s|
  {
    if e != s[0] {
      assert e in s[1..];
      NewestFirstHead(s[1..], e);
    }
  }

  lemma WithTimeOfHead(s: seq<FileEntry>)
    requires s != []
    ensures WithTime(s, s[0].modified) != []
  {
  }

  /** The first entries of two non-empty newest-first sequences with the same groups share an instant. */
  lemma HeadsShareInstant(u: seq<FileEntry>, v: seq<FileEntry>)
    requires u != [] && v != [] && NewestFirst(u) && NewestFirst(v)
    requires WithTime(u, u[0].modified) == WithTime(v, u[0].modified)
    requires WithTime(u, v[0].modified) == WithTime(v, v[0].modified)
    ensures u[0].modified == v[0].modified
  {
    var tu, tv := u[0].modified, v[0].modified;
    assert u[0] in WithTime(u, tu);
    WithTimeMembers(v, tu, u[0]);
    NewestFirstHead(v, u[0]);
    assert v[0] in WithTime(v, tv);
    WithTimeMembers(u, tv, v[0]);
    NewestFirstHead(u, v[0]);
  }

  /** Sequences whose first entries share an instant and whose groups agree have equal first entries and tails whose groups agree. */
  lemma HeadsAgree(u: seq<FileEntry>, v: seq<FileEntry>)
    requires u != [] && v != [] && u[0].modified == v[0].modified
    requires forall t :: WithTime(u, t) == WithTime(v, t)
    ensures u[0] == v[0]
    ensures forall t :: WithTime(u[1..], t) == WithTime(v[1..], t)
  {
    var tu := u[0].modified;
    var gu, gv := WithTime(u[1..], tu), WithTime(v[1..], tu);
    assert WithTime(u, tu) == [u[0]] + gu;
    assert WithTime(v, tu) == [v[0]] + gv;
    assert ([u[0]] + gu)[0] == u[0] && ([u[0]] + gu)[1..] == gu;
    assert ([v[0]] + gv)[0] == v[0] && ([v[0]] + gv)[1..] == gv;
    forall t ensures WithTime(u[1..], t) == WithTime(v[1..], t) {
      if t != tu {
        assert WithTime(u, t) == WithTime(u[1..], t);
        assert WithTime(v, t) == WithTime(v[1..], t);
      }
    }
  }

  /** Two newest-first sequences with the same group for every instant are equal. */
  lemma {:induction false} SameGroupsEqual(u: seq<FileEntry>, v: seq<FileEntry>)
    requires NewestFirst(u) && NewestFirst(v)
    requires forall t :: WithTime(u, t) == WithTime(v, t)
    ensures u == v
    decreases |u|
  {
    if u == [] && v != [] {
      WithTimeOfHead(v);
      assert false;
    } else if u != [] && v == [] {
      WithTimeOfHead(u);
      assert false;
    } else if u != [] {
      HeadsShareInstant(u, v);
      HeadsAgree(u, v);
      SameGroupsEqual(u[1..], v[1..]);
      assert u == [u[0]] + u[1..] && v == [v[0]] + v[1..];
    }
  }

  /** Any newest-first arrangement that keeps every group of equal instants in load order is exactly the sort's result. */
  lemma StableSortUnique(s: seq<FileEntry>, u: seq<FileEntry>)
    requires NewestFirst(u)
    requires forall t :: WithTime(u, t) == WithTime(s, t)
    ensures u == SortNewestFirst(s)
  {
    SortIsNewestFirst(s);
    forall t ensures WithTime(u, t) == WithTime(SortNewestFirst(s), t) {
      SortIsStable(s, t);
    }
    SameGroupsEqual(u, SortNewestFirst(s));
  }
}
