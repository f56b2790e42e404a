/**
 * The string operations of Rust's standard library that the builder relies on:
 * `split` with a char pattern, `join`, `trim`, `replace`, `lines`, decimal
 * formatting of an integer, and the ordering of `String` keys in a `BTreeMap`.
 * Strings are sequences of Unicode scalar values (Dafny's `char`), as Rust's
 * `str` is; byte offsets never appear.
 */
module Text {

  // ---------------------------------------------------------------------------
  // Splitting and joining

  /** `s.split(sep)`: the pieces between occurrences of `sep`, empty pieces kept. */
  function Split(s: string, sep: char): (parts: seq<string>)
    ensures |parts| >= 1
    decreases |s|
  {
    if s == [] then [""]
    else
      var rest := Split(s[1..], sep);
      if s[0] == sep then [""] + rest
      else [[s[0]] + rest[0]] + rest[1..]
  }

  /** `parts.join(sep)`. */
  function Join(parts: seq<string>, sep: string): string
    decreases |parts|
  {
    if parts == [] then ""
    else if |parts| == 1 then parts[0]
    else parts[0] + sep + Join(parts[1..], sep)
  }

  /** Index of the first `c` in `s`, or `|s|` when there is none. */
  function IndexOf(s: string, c: char): (k: nat)
    ensures k <= |s|
    ensures c !in s[..k]
    ensures k < |s| ==> s[k] == c
    decreases |s|
  {
    if s == [] then 0
    else if s[0] == c then 0
    else
      var k := IndexOf(s[1..], c);
      assert s[1..][..k] == s[1..k + 1];
      k + 1
  }

  /** Joining the pieces of a split with the separator gives back the string. */
  lemma {:induction false} JoinSplit(s: string, sep: char)
    ensures Join(Split(s, sep), [sep]) == s
    decreases |s|
  {
    if s != [] {
      var rest := Split(s[1..], sep);
      JoinSplit(s[1..], sep);
      if s[0] == sep {
        assert Split(s, sep) == [""] + rest;
        assert ([""] + rest)[1..] == rest;
      } else {
        var parts := Split(s, sep);
        assert parts == [[s[0]] + rest[0]] + rest[1..];
        if |rest| == 1 {
          assert parts == [[s[0]] + rest[0]];
        } else {
          assert parts[1..] == rest[1..];
          assert Join(rest, [sep]) == rest[0] + [sep] + Join(rest[1..], [sep]);
        }
      }
    }
  }

  /** No piece of a split contains the separator. */
  lemma {:induction false} SplitPiecesLackSeparator(s: string, sep: char)
    ensures forall i :: 0 <= i < |Split(s, sep)| ==> sep !in Split(s, sep)[i]
    decreases |s|
  {
    if s != [] {
      SplitPiecesLackSeparator(s[1..], sep);
    }
  }

  /** A split has one more piece than the string has separators. */
  lemma {:induction false} SplitCount(s: string, sep: char)
    ensures |Split(s, sep)| == multiset(s)[sep] + 1
    decreases |s|
  {
    if s != [] {
      SplitCount(s[1..], sep);
      assert s == [s[0]] + s[1..];
      assert multiset(s) == multiset([s[0]]) + multiset(s[1..]);
    }
  }

  /** The first piece is everything before the first separator; joining the other pieces gives everything after it. */
  lemma {:induction false} SplitHead(s: string, sep: char)
    ensures Split(s, sep)[0] == s[..IndexOf(s, sep)]
    ensures IndexOf(s, sep) == |s| ==> |Split(s, sep)| == 1
    ensures IndexOf(s, sep) < |s| ==> Join(Split(s, sep)[1..], [sep]) == s[IndexOf(s, sep) + 1..]
    decreases |s|
  {
    if s != [] {
      var rest := Split(s[1..], sep);
      if s[0] == sep {
        JoinSplit(s[1..], sep);
        assert Split(s, sep)[1..] == rest;
      } else {
        SplitHead(s[1..], sep);
        var k := IndexOf(s[1..], sep);
        assert s[..k + 1] == [s[0]] + s[1..][..k];
        if k < |s[1..]| {
          assert Split(s, sep)[1..] == rest[1..];
          assert s[k + 2..] == s[1..][k + 1..];
        }
      }
    }
  }

  /** Splitting a join of separator-free pieces gives the pieces back. */
  lemma {:induction false} SplitJoin(parts: seq<string>, sep: char)
    requires |parts| >= 1
    requires forall i :: 0 <= i < |parts| ==> sep !in parts[i]
    ensures Split(Join(parts, [sep]), sep) == parts
    decreases |parts|
  {
    if |parts| == 1 {
      NoSeparatorSingle(parts[0], sep);
    } else {
      SplitJoin(parts[1..], sep);
      SplitPrefix(parts[0], Join(parts[1..], [sep]), sep);
      assert parts == [parts[0]] + parts[1..];
    }
  }

  /** A string without the separator splits into itself. */
  lemma {:induction false} NoSeparatorSingle(s: string, sep: char)
    requires sep !in s
    ensures Split(s, sep) == [s]
    decreases |s|
  {
    if s != [] {
      NoSeparatorSingle(s[1..], sep);
      assert [s[0]] + s[1..] == s;
    }
  }

  /** Splitting `a + [sep] + b`, where `a` has no separator, puts `a` first and then splits `b`. */
  lemma {:induction false} SplitPrefix(a: string, b: string, sep: char)
    requires sep !in a
    ensures Split(a + [sep] + b, sep) == [a] + Split(b, sep)
    decreases |a|
  {
    if a == [] {
      assert a + [sep] + b == [sep] + b;
      assert ([sep] + b)[1..] == b;
    } else {
      SplitPrefix(a[1..], b, sep);
      var s := a + [sep] + b;
      assert s[1..] == a[1..] + [sep] + b;
      assert [a[0]] + a[1..] == a;
    }
  }

  // ---------------------------------------------------------------------------
  // Whitespace trimming

  /** Rust's `char::is_whitespace`: the Unicode `White_Space` property. */
  predicate IsWhitespace(c: char) {
    var n := c as int;
    (0x09 <= n <= 0x0D) || n == 0x20 || n == 0x85 || n == 0xA0 || n == 0x1680
    || (0x2000 <= n <= 0x200A) || n == 0x2028 || n == 0x2029 || n == 0x202F
    || n == 0x205F || n == 0x3000
  }

  predicate AllWhitespace(s: string) {
    forall i :: 0 <= i < |s| ==> IsWhitespace(s[i])
  }

  /** `trim_start`: drops the leading whitespace. */
  function TrimStart(s: string): (r: string)
    ensures |r| <= |s| && r == s[|s| - |r|..]
    ensures AllWhitespace(s[..|s| - |r|])
    ensures r == [] || !IsWhitespace(r[0])
    decreases |s|
  {
    if s != [] && IsWhitespace(s[0]) then
      var r := TrimStart(s[1..]);
      assert s[..|s| - |r|] == [s[0]] + s[1..][..|s| - 1 - |r|];
      r
    else s
  }

  /** `trim_end`: drops the trailing whitespace. */
  function TrimEnd(s: string): (r: string)
    ensures |r| <= |s| && r == s[..|r|]
    ensures AllWhitespace(s[|r|..])
    ensures r == [] || !IsWhitespace(r[|r| - 1])
    decreases |s|
  {
    if s != [] && IsWhitespace(s[|s| - 1]) then
      var r := TrimEnd(s[..|s| - 1]);
      assert s[|r|..] == s[..|s| - 1][|r|..] + [s[|s| - 1]];
      r
    else s
  }

  /** `trim`: drops leading and trailing whitespace. */
  function Trim(s: string): string {
    TrimEnd(TrimStart(s))
  }

  /** Neither the first nor the last character is whitespace. */
  predicate Trimmed(s: string) {
    s == [] || (!IsWhitespace(s[0]) && !IsWhitespace(s[|s| - 1]))
  }

  /** `r` is `s` with all-whitespace margins of lengths `i` and `|s| - i - |r|` removed. */
  predicate TrimmedAt(s: string, r: string, i: nat) {
    i + |r| <= |s| && s[i..i + |r|] == r && AllWhitespace(s[..i]) && AllWhitespace(s[i + |r|..])
  }

  /** Trimming removes only whitespace, and only at the ends. */
  lemma TrimOnlyMargins(s: string)
    ensures TrimmedAt(s, Trim(s), |s| - |TrimStart(s)|)
  {
    var t := TrimStart(s);
    MarginsAt(s, t, TrimEnd(t), |s| - |t|);
  }

  lemma MarginsAt(s: string, t: string, r: string, i: nat)
    requires i <= |s| && t == s[i..] && AllWhitespace(s[..i])
    requires |r| <= |t| && r == t[..|r|] && AllWhitespace(t[|r|..])
    ensures TrimmedAt(s, r, i)
  {
    assert s[i..i + |r|] == t[..|r|];
    assert s[i + |r|..] == t[|r|..];
  }

  /** Trimming leaves no whitespace at either end. */
  lemma TrimLeavesNoMargin(s: string)
    ensures Trimmed(Trim(s))
  {
    var t := TrimStart(s);
    var r := TrimEnd(t);
    if r != [] {
      assert r[0] == t[0];
    }
  }

  /** Trimming removes only whitespace, only at the ends, and leaves no whitespace at either end. */
  lemma TrimSpec(s: string)
    ensures TrimmedAt(s, Trim(s), |s| - |TrimStart(s)|)
    ensures Trimmed(Trim(s))
  {
    TrimOnlyMargins(s);
    TrimLeavesNoMargin(s);
  }

  /** A string that neither starts nor ends with whitespace is its own trim. */
  lemma TrimIdentity(s: string)
    requires Trimmed(s)
    ensures Trim(s) == s
  {
  }

  // ---------------------------------------------------------------------------
  // Substring search and replacement

  /** `s.contains(pat)`. */
  predicate Occurs(s: string, pat: string)
    decreases |s|
  {
    |s| >= |pat| && (s[..|pat|] == pat || (s != [] && Occurs(s[1..], pat)))
  }

  /** `s.replace(pat, rep)`: every non-overlapping occurrence, scanning left to right. */
  function Replace(s: string, pat: string, rep: string): string
    requires pat != []
    decreases |s|
  {
    if |s| < |pat| then s
    else if s[..|pat|] == pat then rep + Replace(s[|pat|..], pat, rep)
    else [s[0]] + Replace(s[1..], pat, rep)
  }

  /** Replacing a pattern that does not occur changes nothing. */
  lemma {:induction false} ReplaceAbsent(s: string, pat: string, rep: string)
    requires pat != [] && !Occurs(s, pat)
    ensures Replace(s, pat, rep) == s
    decreases |s|
  {
    if |s| >= |pat| {
      ReplaceAbsent(s[1..], pat, rep);
      assert [s[0]] + s[1..] == s;
    }
  }

  // ---------------------------------------------------------------------------
  // Lines

  /** Drops one trailing carriage return. */
  function StripCr(s: string): (r: string)
    ensures r == s || (s == r + ['\r'])
  {
    if s != [] && s[|s| - 1] == '\r' then s[..|s| - 1] else s
  }

  /**
   * `s.lines()`: the text is cut after every line feed, the line feed is
   * dropped together with a carriage return just before it, and a final
   * empty piece (text that is empty or ends in a line feed) is no line.
   */
  function Lines(s: string): seq<string> {
    var pieces := Split(s, '\n');
    var n := |pieces| - 1;
    seq(n, i requires 0 <= i < n => StripCr(pieces[i]))
      + (if pieces[n] == "" then [] else [pieces[n]])
  }

  /** No line contains a line feed. */
  lemma LinesLackNewline(s: string)
    ensures forall i :: 0 <= i < |Lines(s)| ==> '\n' !in Lines(s)[i]
  {
    SplitPiecesLackSeparator(s, '\n');
    var pieces := Split(s, '\n');
    var n := |pieces| - 1;
    forall i | 0 <= i < |Lines(s)| ensures '\n' !in Lines(s)[i] {
      if i < n {
        assert Lines(s)[i] == StripCr(pieces[i]);
        assert forall c :: c in StripCr(pieces[i]) ==> c in pieces[i];
      } else {
        assert Lines(s)[i] == pieces[n];
      }
    }
  }

  /** A text written as lines, each ended by a line feed, reads back as those lines, unless a line itself ends in `\r`. */
  lemma LinesOfTerminated(ls: seq<string>)
    requires forall i :: 0 <= i < |ls| ==> '\n' !in ls[i] && (ls[i] == [] || ls[i][|ls[i]| - 1] != '\r')
    ensures Lines(Join(ls + [""], "\n")) == ls
  {
    var parts := ls + [""];
    forall i | 0 <= i < |parts| ensures '\n' !in parts[i] {
      if i < |ls| { assert parts[i] == ls[i]; }
    }
    SplitJoin(parts, '\n');
    assert Split(Join(parts, "\n"), '\n') == parts;
    var n := |parts| - 1;
    forall i | 0 <= i < n ensures StripCr(parts[i]) == ls[i] {
      assert parts[i] == ls[i];
    }
  }

  /** Each line followed by a carriage return. */
  function CrEnded(ls: seq<string>): (r: seq<string>)
    ensures |r| == |ls|
    ensures forall i :: 0 <= i < |ls| ==> r[i] == ls[i] + "\r"
    decreases |ls|
  {
    if ls == [] then [] else [ls[0] + "\r"] + CrEnded(ls[1..])
  }

  /** Ending every line with `\r\n` is ending every line with `\r` and then `\n`. */
  lemma {:induction false} JoinCrlf(ls: seq<string>)
    ensures Join(ls + [""], "\r\n") == Join(CrEnded(ls) + [""], "\n")
    decreases |ls|
  {
    if ls != [] {
      JoinCrlf(ls[1..]);
      var tail := Join(ls[1..] + [""], "\r\n");
      assert (ls + [""])[1..] == ls[1..] + [""];
      assert Join(ls + [""], "\r\n") == ls[0] + "\r\n" + tail;
      var cr := CrEnded(ls) + [""];
      assert cr[0] == ls[0] + "\r";
      assert cr[1..] == CrEnded(ls[1..]) + [""];
      assert Join(cr, "\n") == ls[0] + "\r" + "\n" + tail;
      assert ls[0] + "\r\n" + tail == ls[0] + "\r" + "\n" + tail;
    }
  }

  /** A line feed is in a line ended by a carriage return only when it is in the line. */
  lemma CrEndedLacksNewline(l: string)
    requires '\n' !in l
    ensures '\n' !in l + "\r"
  {
  }

  lemma StripAddedCr(l: string)
    ensures StripCr(l + "\r") == l
  {
    assert (l + "\r")[..|l|] == l;
  }

  /** A text cut at line feeds into lines each ended by `\r`, and a final empty piece, reads back as the lines without their `\r`. */
  lemma LinesOfCrPieces(ls: seq<string>, parts: seq<string>)
    requires |parts| == |ls| + 1 && parts[|ls|] == ""
    requires forall i :: 0 <= i < |ls| ==> parts[i] == ls[i] + "\r"
    requires forall i :: 0 <= i < |parts| ==> '\n' !in parts[i]
    ensures Lines(Join(parts, "\n")) == ls
  {
    SplitJoin(parts, '\n');
    forall i | 0 <= i < |ls| ensures StripCr(parts[i]) == ls[i] {
      StripAddedCr(ls[i]);
    }
  }

  lemma CrEndedLackNewline(ls: seq<string>)
    requires forall i :: 0 <= i < |ls| ==> '\n' !in ls[i]
    ensures forall i :: 0 <= i < |CrEnded(ls) + [""]| ==> '\n' !in (CrEnded(ls) + [""])[i]
  {
    var parts := CrEnded(ls) + [""];
    forall i | 0 <= i < |parts| ensures '\n' !in parts[i] {
      if i < |ls| {
        assert parts[i] == ls[i] + "\r";
        CrEndedLacksNewline(ls[i]);
      }
    }
  }

  /** A text written as lines, each ended by `\r\n`, reads back as those lines: the carriage returns go with the line feeds. */
  lemma LinesOfCrlfTerminated(ls: seq<string>)
    requires forall i :: 0 <= i < |ls| ==> '\n' !in ls[i]
    ensures Lines(Join(ls + [""], "\r\n")) == ls
  {
    JoinCrlf(ls);
    CrEndedLackNewline(ls);
    LinesOfCrPieces(ls, CrEnded(ls) + [""]);
  }

  // ---------------------------------------------------------------------------
  // Decimal formatting

  function DigitChar(d: nat): (c: char)
    requires d < 10
    ensures '0' <= c <= '9'
  {
    ['0', '1', '2', '3', '4', '5', '6', '7', '8', '9'][d]
  }

  /** `format!("{}", n)` for a non-negative integer: its decimal digits, no leading zeros. */
  function NatToString(n: nat): (s: string)
    ensures |s| >= 1
    ensures n < 10 <==> |s| == 1
    ensures forall i :: 0 <= i < |s| ==> '0' <= s[i] <= '9'
    ensures s[0] == '0' <==> n == 0
    decreases n
  {
    if n < 10 then [DigitChar(n)] else NatToString(n / 10) + [DigitChar(n % 10)]
  }

  /** The number a string of decimal digits denotes, most significant digit first. */
  function DecimalValue(s: string): int
    decreases |s|
  {
    if s == [] then 0 else 10 * DecimalValue(s[..|s| - 1]) + (s[|s| - 1] as int - '0' as int)
  }

  lemma DigitCharValue(d: nat)
    requires d < 10
    ensures DigitChar(d) as int - '0' as int == d
  {
  }

  /** The digits printed for `n` denote `n`. */
  lemma {:induction false} NatToStringValue(n: nat)
    ensures DecimalValue(NatToString(n)) == n
    decreases n
  {
    var s := NatToString(n);
    if n < 10 {
      assert s[..0] == [];
      DigitCharValue(n);
    } else {
      assert s[..|s| - 1] == NatToString(n / 10);
      NatToStringValue(n / 10);
      DigitCharValue(n % 10);
    }
  }

  lemma DigitCharInjective(a: nat, b: nat)
    requires a < 10 && b < 10 && DigitChar(a) == DigitChar(b)
    ensures a == b
  {
  }

  /** Different numbers print differently. */
  lemma {:induction false} NatToStringInjective(a: nat, b: nat)
    requires NatToString(a) == NatToString(b)
    ensures a == b
    decreases a
  {
    var s := NatToString(a);
    if a < 10 {
      assert b < 10;
      DigitCharInjective(a, b);
    } else {
      assert b >= 10;
      assert s[|s| - 1] == DigitChar(a % 10) == DigitChar(b % 10);
      DigitCharInjective(a % 10, b % 10);
      assert s[..|s| - 1] == NatToString(a / 10) == NatToString(b / 10);
      NatToStringInjective(a / 10, b / 10);
    }
  }

  // ---------------------------------------------------------------------------
  // Ordering of keys

  /** `a < b` for Rust `String`s: lexicographic by code point (the order of their UTF-8 bytes). */
  predicate Less(a: string, b: string)
    decreases |a|
  {
    if a == [] then b != []
    else if b == [] then false
    else if a[0] != b[0] then a[0] < b[0]
    else Less(a[1..], b[1..])
  }

  lemma {:induction false} LessIrreflexive(a: string)
    ensures !Less(a, a)
    decreases |a|
  {
    if a != [] { LessIrreflexive(a[1..]); }
  }

  /** Any two different strings are ordered one way round. */
  lemma {:induction false} LessTotal(a: string, b: string)
    requires a != b
    ensures Less(a, b) || Less(b, a)
    decreases |a|
  {
    if a != [] && b != [] && a[0] == b[0] {
      assert a == [a[0]] + a[1..] && b == [b[0]] + b[1..];
      LessTotal(a[1..], b[1..]);
    }
  }

  lemma {:induction false} LessAsymmetric(a: string, b: string)
    requires Less(a, b)
    ensures !Less(b, a)
    decreases |a|
  {
    if a != [] && b != [] && a[0] == b[0] {
      LessAsymmetric(a[1..], b[1..]);
    }
  }

  /** The order is transitive. */
  lemma {:induction false} LessTransitive(a: string, b: string, c: string)
    requires Less(a, b) && Less(b, c)
    ensures Less(a, c)
    decreases |a|
  {
    if a != [] && a[0] == b[0] && b[0] == c[0] {
      LessTransitive(a[1..], b[1..], c[1..]);
    }
  }
}
