/**
 * The index pages of `build_blog`: the navigation list it hands to every
 * index page, the chunks of `entries` entries it cuts the sorted entries
 * into, and the file each chunk is written to.
 */
module Pagination {
  import opened Text

  /** Rust's `u8`. */
  type U8 = n: nat | n < 256

  /** `n as u8`: the count modulo 256. */
  function AsU8(n: nat): U8 {
    n % 256
  }

  /** The least number of pages of `p` entries that hold `n` entries. */
  function CeilDiv(n: nat, p: nat): nat
    requires p > 0
  {
    (n + p - 1) / p
  }

  lemma MulMono(x: nat, y: nat, p: nat)
    ensures x <= y ==> x * p <= y * p
  {
    if x <= y {
      assert y * p == x * p + (y - x) * p;
    }
  }

  lemma DivUnique(a: nat, p: nat, m: nat)
    requires p > 0 && m * p <= a < (m + 1) * p
    ensures a / p == m
  {
    var q, r := a / p, a % p;
    assert q * p <= a < (q + 1) * p;
    MulMono(m + 1, q, p);
    MulMono(q + 1, m, p);
  }

  /** `CeilDiv(n, p)` pages are enough for `n` entries and one page fewer is not. */
  lemma CeilDivBounds(n: nat, p: nat)
    requires p > 0
    ensures CeilDiv(n, p) * p >= n
    ensures n > 0 ==> CeilDiv(n, p) >= 1 && (CeilDiv(n, p) - 1) * p < n
  {
    var q, r := n / p, n % p;
    assert n == q * p + r;
    if r == 0 {
      assert q * p <= n + p - 1 < (q + 1) * p;
      DivUnique(n + p - 1, p, q);
      if n > 0 {
        assert q >= 1;
        assert (q - 1) * p == q * p - p;
      }
    } else {
      assert (q + 1) * p == q * p + p;
      assert (q + 1) * p <= n + p - 1 < (q + 2) * p;
      DivUnique(n + p - 1, p, q + 1);
    }
  }

  /** The way `build_blog` counts pages, a quotient plus one for a remainder, is `CeilDiv`. */
  lemma CeilDivBySteps(n: nat, p: nat)
    requires p > 0
    ensures n / p + (if n % p > 0 then 1 else 0) == CeilDiv(n, p)
  {
    var q, r := n / p, n % p;
    assert n == q * p + r;
    if r == 0 {
      assert q * p <= n + p - 1 < (q + 1) * p;
      DivUnique(n + p - 1, p, q);
    } else {
      assert (q + 1) * p == q * p + p;
      assert (q + 1) * p <= n + p - 1 < (q + 2) * p;
      DivUnique(n + p - 1, p, q + 1);
    }
  }

  /** With a remainder the divisor is at least two, so the page count plus one still fits in a `u8`. */
  lemma PagesFitU8(n: U8, p: U8)
    requires 0 < p && n % p > 0
    ensures n / p + 1 < 256
  {
    var q := n / p;
    assert n == q * p + n % p;
    assert p >= 2;
    MulMono(2, p, q);
  }

  // ---------------------------------------------------------------------------
  // Navigation

  datatype NavLink = NavLink(name: string, url: string)

  /** The file the index page of chunk `i` is written to. */
  function IndexFileName(i: nat): string {
    if i == 0 then "index.html" else "index" + NatToString(i) + ".html"
  }

  /** The navigation entry for page `i`. */
  function PageLink(i: nat): NavLink {
    if i == 0 then NavLink("home", "index.html")
    else NavLink("page " + NatToString(i), "index" + NatToString(i) + ".html")
  }

  /** Navigation entry `i` points at the file chunk `i` is written to. */
  lemma PageLinkPointsAtIndexFile(i: nat)
    ensures PageLink(i).url == IndexFileName(i)
  {
  }

  lemma StripAffixes(a: string, x: string, y: string, b: string)
    requires a + x + b == a + y + b
    ensures x == y
  {
    assert |x| == |y|;
    assert x == (a + x + b)[|a|..|a| + |x|];
    assert y == (a + y + b)[|a|..|a| + |y|];
  }

  /** The first three index files. */
  lemma FirstIndexFileNames()
    ensures IndexFileName(0) == "index.html" && IndexFileName(1) == "index1.html" && IndexFileName(2) == "index2.html"
  {
    assert NatToString(1) == "1" && NatToString(2) == "2";
  }

  /** No two chunks are written to the same index file. */
  lemma IndexFileNamesDistinct(i: nat, j: nat)
    requires IndexFileName(i) == IndexFileName(j)
    ensures i == j
  {
    if i > 0 && j > 0 {
      StripAffixes("index", NatToString(i), NatToString(j), ".html");
      NatToStringInjective(i, j);
    }
  }

  /** How many navigation entries `build_blog` makes for `len` entries, `perPage` to a page. */
  function PageCount(len: nat, perPage: U8): nat
    requires perPage > 0
  {
    var n := AsU8(len);
    if n > perPage then CeilDiv(n, perPage) else 0
  }

  /**
   * The navigation list of `build_blog`: nothing when the (8-bit) entry count
   * fits on one page, otherwise one link per page, `home` first.
   */
  method ComputePagination(len: nat, perPage: U8) returns (pagination: seq<NavLink>)
    requires perPage > 0
    ensures AsU8(len) <= perPage ==> pagination == []
    ensures AsU8(len) > perPage ==> |pagination| == CeilDiv(AsU8(len), perPage)
    ensures forall i :: 0 <= i < |pagination| ==> pagination[i] == PageLink(i)
  {
    pagination := [];
    var numEntries := AsU8(len);
    if numEntries > perPage {
      var numPages := numEntries / perPage;
      if numEntries % perPage > 0 {
        PagesFitU8(numEntries, perPage);
        numPages := numPages + 1;
      }
      CeilDivBySteps(numEntries, perPage);
      pagination := PageLinks(numPages);
    }
  }

  /** The `for index in 0..num_pages` loop of `build_blog`: one link per page, in page order. */
  method PageLinks(numPages: nat) returns (pagination: seq<NavLink>)
    ensures |pagination| == numPages
    ensures forall i :: 0 <= i < numPages ==> pagination[i] == PageLink(i)
  {
    pagination := [];
    var index := 0;
    while index < numPages
      invariant 0 <= index <= numPages
      invariant |pagination| == index
      invariant forall i :: 0 <= i < index ==> pagination[i] == PageLink(i)
    {
      pagination := pagination + [PageLink(index)];
      index := index + 1;
    }
  }

  // ---------------------------------------------------------------------------
  // Chunks

  /** `s.chunks(p)`: consecutive slices of `p` elements, the last one possibly shorter. */
  function Chunks<T>(s: seq<T>, p: nat): seq<seq<T>>
    requires p > 0
    decreases |s|
  {
    if s == [] then []
    else if |s| <= p then [s]
    else [s[..p]] + Chunks(s[p..], p)
  }

  /** The concatenation of a sequence of sequences. */
  function Flatten<T>(cs: seq<seq<T>>): seq<T>
    decreases |cs|
  {
    if cs == [] then [] else Flatten(cs[..|cs| - 1]) + cs[|cs| - 1]
  }

  lemma {:induction false} FlattenCons<T>(c: seq<T>, cs: seq<seq<T>>)
    ensures Flatten([c] + cs) == c + Flatten(cs)
    decreases |cs|
  {
    if cs != [] {
      var all := [c] + cs;
      assert all[..|all| - 1] == [c] + cs[..|cs| - 1];
      FlattenCons(c, cs[..|cs| - 1]);
    } else {
      assert ([c] + cs)[..0] == [];
    }
  }

  /** Concatenating the chunks gives the entries back. */
  lemma {:induction false} ChunksFlatten<T>(s: seq<T>, p: nat)
    requires p > 0
    ensures Flatten(Chunks(s, p)) == s
    decreases |s|
  {
    if s != [] {
      if |s| <= p {
        assert Flatten([s]) == Flatten([s][..0]) + s;
      } else {
        ChunksFlatten(s[p..], p);
        FlattenCons(s[..p], Chunks(s[p..], p));
        assert s[..p] + s[p..] == s;
      }
    }
  }

  /** There are `ceil(|s| / p)` chunks, all of `p` elements except the last, which has between one and `p`. */
  lemma {:induction false} ChunksShape<T>(s: seq<T>, p: nat)
    requires p > 0
    ensures |Chunks(s, p)| == CeilDiv(|s|, p)
    ensures forall i :: 0 <= i < |Chunks(s, p)| ==> 0 < |Chunks(s, p)[i]| <= p
    ensures forall i :: 0 <= i < |Chunks(s, p)| - 1 ==> |Chunks(s, p)[i]| == p
    decreases |s|
  {
    if s == [] {
      DivUnique(p - 1, p, 0);
    } else if |s| <= p {
      assert 1 * p <= |s| + p - 1 < 2 * p;
      DivUnique(|s| + p - 1, p, 1);
    } else {
      ChunksShape(s[p..], p);
      var m := CeilDiv(|s| - p, p);
      CeilDivBounds(|s| - p, p);
      assert m * p + p == (m + 1) * p;
      assert (m + 1) * p <= |s| + p - 1;
      assert (m - 1) * p < |s| - p;
      assert |s| + p - 1 < (m + 2) * p;
      DivUnique(|s| + p - 1, p, m + 1);
      var cs := Chunks(s, p);
      assert cs == [s[..p]] + Chunks(s[p..], p);
      forall i | 0 < i < |cs| ensures cs[i] == Chunks(s[p..], p)[i - 1] { }
    }
  }

  /** Chunk `i` is the slice from `i * p` to `(i + 1) * p`, or to the end. */
  lemma {:induction false} ChunkAt<T>(s: seq<T>, p: nat, i: nat)
    requires p > 0 && i < |Chunks(s, p)|
    ensures i * p < |s|
    ensures Chunks(s, p)[i] == s[i * p .. Min(|s|, (i + 1) * p)]
    decreases |s|
  {
    if |s| > p && i > 0 {
      ChunkAt(s[p..], p, i - 1);
      ShiftedSlice(s, p, i);
    }
  }

  function Min(a: nat, b: nat): nat {
    if a <= b then a else b
  }

  /** Slice `i - 1` of `s[p..]` is slice `i` of `s`. */
  lemma ShiftedSlice<T>(s: seq<T>, p: nat, i: nat)
    requires p <= |s| && 0 < i && (i - 1) * p < |s| - p
    ensures i * p < |s|
    ensures s[p..][(i - 1) * p .. Min(|s| - p, i * p)] == s[i * p .. Min(|s|, (i + 1) * p)]
  {
    var a, b := (i - 1) * p, i * p;
    assert b == a + p;
    assert (i + 1) * p == b + p;
    assert Min(|s| - p, b) + p == Min(|s|, b + p);
  }

  // ---------------------------------------------------------------------------
  // Navigation against chunks

  /** With one page's worth of entries or fewer there is no navigation and at most one chunk. */
  lemma OnePageNoNavigation(len: nat, perPage: U8)
    requires perPage > 0 && len <= perPage
    ensures PageCount(len, perPage) == 0
    ensures CeilDiv(len, perPage) <= 1
  {
    if len > 0 {
      assert perPage <= len + perPage - 1 < 2 * perPage;
      DivUnique(len + perPage - 1, perPage, 1);
    } else {
      DivUnique(perPage - 1, perPage, 0);
    }
  }

  /** Below 256 entries and above one page, there is one navigation link per chunk. */
  lemma NavigationMatchesChunks(len: nat, perPage: U8)
    requires perPage > 0 && perPage < len < 256
    ensures PageCount(len, perPage) == CeilDiv(len, perPage)
  {
  }

  /** The entry count is taken modulo 256: from 256 entries on, a site with several chunks can get no navigation at all. */
  lemma NavigationLostFrom256(len: nat, perPage: U8)
    requires perPage > 0 && len >= 256 && len % 256 <= perPage
    ensures PageCount(len, perPage) == 0
    ensures CeilDiv(len, perPage) >= 2
  {
    CeilDivBounds(len, perPage);
    assert 1 * perPage < len;
  }

  /** For instance 256 entries, ten to a page, make 26 index pages and an empty navigation list. */
  lemma NavigationLostExample()
    ensures PageCount(256, 10) == 0 && CeilDiv(256, 10) == 26
  {
  }
}
