/**
 * The tag map of `build_blog`: a `BTreeMap` from tag to the references of the
 * entries carrying it. A B-tree map iterates its keys in ascending order, so
 * it is modelled as a list of (key, references) pairs kept strictly ordered
 * by key; looking a tag up and appending under it are the `get_mut` / `insert`
 * pair of the source.
 */
module TagIndex {
  import opened Text

  /** The `{url, title, tag}` object recorded for one tag of one entry. */
  datatype TagRef = TagRef(url: string, title: string, tag: string)

  /** A `BTreeMap<String, Vec<TagRef>>`, in iteration order. */
  type TagMap = seq<(string, seq<TagRef>)>

  /** The keys, in iteration order. */
  function Keys(m: TagMap): seq<string> {
    seq(|m|, i requires 0 <= i < |m| => m[i].0)
  }

  /** Keys strictly ascend, so each occurs once. */
  predicate Ordered(m: TagMap) {
    forall i, j :: 0 <= i < j < |m| ==> Less(m[i].0, m[j].0)
  }

  /** The references under `key`, none when it is absent. */
  function Lookup(m: TagMap, key: string): seq<TagRef>
    decreases |m|
  {
    if m == [] then []
    else if m[0].0 == key then m[0].1
    else Lookup(m[1..], key)
  }

  /**
   * Records `r` under `tag`: appended to the references already there, or as
   * the only one of a new key placed where the order puts it.
   */
  function Append(m: TagMap, tag: string, r: TagRef): TagMap
    decreases |m|
  {
    if m == [] then [(tag, [r])]
    else if m[0].0 == tag then [(tag, m[0].1 + [r])] + m[1..]
    else if Less(tag, m[0].0) then [(tag, [r])] + m
    else [m[0]] + Append(m[1..], tag, r)
  }

  // ---------------------------------------------------------------------------
  // One append

  lemma {:induction false} LookupAbsent(m: TagMap, key: string)
    requires key !in Keys(m)
    ensures Lookup(m, key) == []
    decreases |m|
  {
    if m != [] {
      assert Keys(m)[0] == m[0].0;
      assert Keys(m[1..]) == Keys(m)[1..];
      LookupAbsent(m[1..], key);
    }
  }

  lemma OrderedTail(m: TagMap)
    requires Ordered(m) && m != []
    ensures Ordered(m[1..])
    ensures m[0].0 !in Keys(m[1..])
  {
    if m[0].0 in Keys(m[1..]) {
      var j :| 0 <= j < |m| - 1 && Keys(m[1..])[j] == m[0].0;
      assert Less(m[0].0, m[j + 1].0);
      LessIrreflexive(m[0].0);
    }
  }

  /** The keys after an append are the keys before and the tag. */
  lemma {:induction false} AppendKeys(m: TagMap, tag: string, r: TagRef)
    ensures forall k :: k in Keys(Append(m, tag, r)) <==> k in Keys(m) || k == tag
    decreases |m|
  {
    var m2 := Append(m, tag, r);
    if m == [] {
      assert Keys(m2) == [tag];
    } else if m[0].0 == tag {
      assert Keys(m2) == Keys(m);
      assert Keys(m)[0] == tag;
    } else if Less(tag, m[0].0) {
      assert Keys(m2) == [tag] + Keys(m);
    } else {
      AppendKeys(m[1..], tag, r);
      assert Keys(m) == [m[0].0] + Keys(m[1..]);
      assert Keys(m2) == [m[0].0] + Keys(Append(m[1..], tag, r));
    }
  }

  /** An append keeps the keys in ascending order. */
  lemma {:induction false} AppendOrdered(m: TagMap, tag: string, r: TagRef)
    requires Ordered(m)
    ensures Ordered(Append(m, tag, r))
    decreases |m|
  {
    if m == [] {
    } else if m[0].0 == tag {
      assert Keys(Append(m, tag, r)) == Keys(m);
    } else if Less(tag, m[0].0) {
      OrderedFront(m, tag, r);
    } else {
      OrderedTail(m);
      AppendOrdered(m[1..], tag, r);
      OrderedBehind(m, tag, r);
    }
  }

  /** A new key smaller than the first goes in front, keeping the order. */
  lemma OrderedFront(m: TagMap, tag: string, r: TagRef)
    requires Ordered(m) && m != [] && Less(tag, m[0].0)
    ensures Ordered([(tag, [r])] + m)
  {
    var m2 := [(tag, [r])] + m;
    forall i, j | 0 <= i < j < |m2| ensures Less(m2[i].0, m2[j].0) {
      if i == 0 {
        if j > 1 {
          LessTransitive(tag, m[0].0, m[j - 1].0);
        }
      } else {
        assert m2[i] == m[i - 1] && m2[j] == m[j - 1];
      }
    }
  }

  /** A tag greater than the first key goes into the tail; the first key stays below every key there. */
  lemma OrderedBehind(m: TagMap, tag: string, r: TagRef)
    requires Ordered(m) && m != [] && m[0].0 != tag && !Less(tag, m[0].0)
    requires Ordered(Append(m[1..], tag, r))
    ensures Ordered([m[0]] + Append(m[1..], tag, r))
  {
    OrderedTail(m);
    AppendKeys(m[1..], tag, r);
    LessTotal(tag, m[0].0);
    var rest := Append(m[1..], tag, r);
    var m2 := [m[0]] + rest;
    forall i, j | 0 <= i < j < |m2| ensures Less(m2[i].0, m2[j].0) {
      if i == 0 {
        assert Keys(rest)[j - 1] == rest[j - 1].0;
        assert rest[j - 1].0 in Keys(rest);
        FirstBelowTail(m, rest[j - 1].0, tag);
        assert m2[j] == rest[j - 1];
      } else {
        assert m2[i] == rest[i - 1] && m2[j] == rest[j - 1];
      }
    }
  }

  /** In an ordered map the first key is below every later key, and below a tag above it. */
  lemma FirstBelowTail(m: TagMap, k: string, tag: string)
    requires Ordered(m) && m != [] && Less(m[0].0, tag)
    requires k in Keys(m[1..]) || k == tag
    ensures Less(m[0].0, k)
  {
    if k != tag {
      var i :| 0 <= i < |m| - 1 && Keys(m[1..])[i] == k;
      assert m[i + 1].0 == k;
    }
  }

  /** In an ordered map, an append adds `r` last under `tag` and leaves every other key's references as they were. */
  lemma {:induction false} AppendLookup(m: TagMap, tag: string, r: TagRef, key: string)
    requires Ordered(m)
    ensures Lookup(Append(m, tag, r), key) == if key == tag then Lookup(m, key) + [r] else Lookup(m, key)
    decreases |m|
  {
    if m == [] {
    } else if m[0].0 == tag {
      if key != tag {
        assert Append(m, tag, r)[1..] == m[1..];
      }
    } else if Less(tag, m[0].0) {
      if key == tag {
        OrderedTail(m);
        forall j | 0 <= j < |m| ensures Keys(m)[j] != tag {
          if j > 0 {
            LessAsymmetric(tag, m[0].0);
          }
        }
        LookupAbsent(m, tag);
      } else {
        assert Append(m, tag, r)[1..] == m;
      }
    } else {
      OrderedTail(m);
      AppendLookup(m[1..], tag, r, key);
      assert Append(m, tag, r)[1..] == Append(m[1..], tag, r);
    }
  }

  // ---------------------------------------------------------------------------
  // The whole fold

  /** The map after appending every reference, in order, to an empty one. */
  function TagMapOf(refs: seq<TagRef>): TagMap
    decreases |refs|
  {
    if refs == [] then []
    else Append(TagMapOf(refs[..|refs| - 1]), refs[|refs| - 1].tag, refs[|refs| - 1])
  }

  /** The references carrying `tag`, in order. */
  function RefsTagged(refs: seq<TagRef>, tag: string): seq<TagRef>
    decreases |refs|
  {
    if refs == [] then []
    else RefsTagged(refs[..|refs| - 1], tag) + (if refs[|refs| - 1].tag == tag then [refs[|refs| - 1]] else [])
  }

  /** The tags of the references, in order. */
  function TagsOf(refs: seq<TagRef>): seq<string> {
    seq(|refs|, i requires 0 <= i < |refs| => refs[i].tag)
  }

  /**
   * The tag map holds, in ascending key order, exactly the tags seen, and
   * under each one the references carrying it in the order they came.
   */
  lemma {:induction false} TagMapContents(refs: seq<TagRef>)
    ensures Ordered(TagMapOf(refs))
    ensures forall k :: k in Keys(TagMapOf(refs)) <==> k in TagsOf(refs)
    ensures forall k :: Lookup(TagMapOf(refs), k) == RefsTagged(refs, k)
    decreases |refs|
  {
    if refs != [] {
      var init, last := refs[..|refs| - 1], refs[|refs| - 1];
      TagMapContents(init);
      AppendOrdered(TagMapOf(init), last.tag, last);
      AppendKeys(TagMapOf(init), last.tag, last);
      assert TagsOf(refs) == TagsOf(init) + [last.tag];
      forall k ensures Lookup(TagMapOf(refs), k) == RefsTagged(refs, k) {
        AppendLookup(TagMapOf(init), last.tag, last, k);
      }
    }
  }

  /** Each occurrence of a tag contributes exactly one reference under it. */
  lemma {:induction false} RefsTaggedCount(refs: seq<TagRef>, tag: string)
    ensures |RefsTagged(refs, tag)| == multiset(TagsOf(refs))[tag]
    ensures forall r :: r in RefsTagged(refs, tag) ==> r in refs && r.tag == tag
    decreases |refs|
  {
    if refs != [] {
      var init := refs[..|refs| - 1];
      RefsTaggedCount(init, tag);
      assert TagsOf(refs) == TagsOf(init) + [refs[|refs| - 1].tag];
    }
  }

  /**
   * Entries tagged `[a, b]`, `[a]` and `[c]` give the references `x`, `y`,
   * `z`, `w` tagged `a`, `b`, `a`, `c`: keys `a`, `b`, `c`, two references
   * under `a` and one under each of the others.
   */
  lemma TagMapExample(x: TagRef, y: TagRef, z: TagRef, w: TagRef)
    requires x.tag == "a" && y.tag == "b" && z.tag == "a" && w.tag == "c"
    ensures TagMapOf([x, y, z, w]) == [("a", [x, z]), ("b", [y]), ("c", [w])]
  {
    assert [x, y, z, w][..3] == [x, y, z];
    assert [x, y, z][..2] == [x, y];
    assert [x, y][..1] == [x];
    assert [x][..0] == [];
    assert Less("a", "b") && Less("b", "c") && Less("a", "c");
    var m1 := [("a", [x])];
    assert TagMapOf([x]) == m1;
    var m2 := [("a", [x]), ("b", [y])];
    assert Append(m1, "b", y) == m2;
    assert TagMapOf([x, y]) == m2;
    var m3 := [("a", [x, z]), ("b", [y])];
    assert [x] + [z] == [x, z];
    assert Append(m2, "a", z) == m3;
    assert TagMapOf([x, y, z]) == m3;
    assert m3[1..] == [("b", [y])];
    assert Append(m3[1..], "c", w) == [("b", [y]), ("c", [w])];
    assert Append(m3, "c", w) == [("a", [x, z]), ("b", [y]), ("c", [w])];
  }
}
