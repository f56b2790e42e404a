/**
 * Reading one source document (`Builder::parse_entry`): the preamble scan,
 * which decodes `key: value` lines up to the second `---` line, and the
 * assembly of the entry record from the decoded fields, the output name and
 * the rendered text.
 */
module Entries {
  import opened Wrappers
  import opened Text
  import opened Naming
  import opened Externals

  const DELIMITER: string := "---"

  const DATE_KEY: string := "date:"
  const TAGS_KEY: string := "tags:"
  const TITLE_KEY: string := "title:"
  const SHARE_IMAGE_KEY: string := "share_image:"
  const HERO_IMAGE_KEY: string := "hero_image:"
  const DESCRIPTION_KEY: string := "description:"

  /** A file of the source directory and the text it holds. */
  datatype SourceFile = SourceFile(path: Path, text: string)

  /** One parsed document (`FileEntry`). */
  datatype FileEntry = FileEntry(
    modified: Timestamp,
    rawText: string,
    contents: string,
    tags: seq<string>,
    title: string,
    url: string,
    heroImage: Option<string>,
    shareImage: Option<string>,
    description: Option<string>)

  /** The fields the preamble decodes. */
  datatype Meta = Meta(
    date: Timestamp,
    tags: seq<string>,
    title: string,
    shareImage: Option<string>,
    heroImage: Option<string>,
    description: Option<string>)

  // ---------------------------------------------------------------------------
  // Where the scan stops

  /** The number of lines exactly equal to the delimiter. */
  function DelimCount(lines: seq<string>): nat
    decreases |lines|
  {
    if lines == [] then 0
    else DelimCount(lines[..|lines| - 1]) + (if lines[|lines| - 1] == DELIMITER then 1 else 0)
  }

  lemma {:induction false} DelimCountAppend(a: seq<string>, b: seq<string>)
    ensures DelimCount(a + b) == DelimCount(a) + DelimCount(b)
    decreases |b|
  {
    if b != [] {
      var c := a + b;
      assert c[..|c| - 1] == a + b[..|b| - 1];
      DelimCountAppend(a, b[..|b| - 1]);
    } else {
      assert a + b == a;
    }
  }

  lemma DelimCountMonotone(lines: seq<string>, j: nat, k: nat)
    requires j <= k <= |lines|
    ensures DelimCount(lines[..j]) <= DelimCount(lines[..k])
  {
    assert lines[..k] == lines[..j] + lines[j..k];
    DelimCountAppend(lines[..j], lines[j..k]);
  }

  /** Where a scan that has passed at most one delimiter before line `i` stops. */
  function ScanEnd(lines: seq<string>, i: nat): (n: nat)
    requires i <= |lines| && DelimCount(lines[..i]) <= 1
    ensures i <= n <= |lines|
    ensures DelimCount(lines[..n]) <= 1
    ensures n < |lines| ==> lines[n] == DELIMITER && DelimCount(lines[..n]) == 1
    decreases |lines| - i
  {
    if i == |lines| then i
    else if lines[i] == DELIMITER && DelimCount(lines[..i]) == 1 then i
    else
      assert lines[..i + 1][..i] == lines[..i];
      ScanEnd(lines, i + 1)
  }

  /** The number of lines the scan decodes: all of them up to the second delimiter, or all when there is none. */
  function PreambleLength(lines: seq<string>): (n: nat)
    ensures n <= |lines| && DelimCount(lines[..n]) <= 1
    ensures n < |lines| ==> lines[n] == DELIMITER && DelimCount(lines[..n]) == 1
  {
    ScanEnd(lines, 0)
  }

  /** The lines the scan decodes. */
  function Preamble(lines: seq<string>): seq<string> {
    lines[..PreambleLength(lines)]
  }

  /** The stopping point is the only position with the properties `PreambleLength` promises. */
  lemma PreambleLengthUnique(lines: seq<string>, n: nat)
    requires n <= |lines| && DelimCount(lines[..n]) <= 1
    requires n < |lines| ==> lines[n] == DELIMITER && DelimCount(lines[..n]) == 1
    ensures n == PreambleLength(lines)
  {
    var m := PreambleLength(lines);
    if n < m {
      assert lines[..n + 1][..n] == lines[..n];
      DelimCountMonotone(lines, n + 1, m);
    } else if m < n {
      assert lines[..m + 1][..m] == lines[..m];
      DelimCountMonotone(lines, m + 1, n);
    }
  }

  /** After one delimiter, the next delimiter ends the scan: nothing after it is decoded. */
  lemma PreambleStopsAtSecondDelimiter(a: seq<string>, b: seq<string>)
    requires DelimCount(a) == 1
    ensures Preamble(a + [DELIMITER] + b) == a
  {
    var lines := a + [DELIMITER] + b;
    assert lines[..|a|] == a;
    PreambleLengthUnique(lines, |a|);
  }

  /** Without a second delimiter the scan decodes every line. */
  lemma PreambleWithoutSecondDelimiter(lines: seq<string>)
    requires DelimCount(lines) <= 1
    ensures Preamble(lines) == lines
  {
    assert lines[..|lines|] == lines;
    PreambleLengthUnique(lines, |lines|);
  }

  /** A document `head --- front matter --- body` has `head --- front matter` decoded: lines before the first delimiter count too. */
  lemma PreambleOfFrontMatter(head: seq<string>, front: seq<string>, body: seq<string>)
    requires DelimCount(head) == 0 && DelimCount(front) == 0
    ensures Preamble(head + [DELIMITER] + front + [DELIMITER] + body) == head + [DELIMITER] + front
  {
    DelimCountAppend(head, [DELIMITER]);
    assert DelimCount([DELIMITER]) == 1 by {
      assert [DELIMITER][..0] == [];
    }
    DelimCountAppend(head + [DELIMITER], front);
    assert head + [DELIMITER] + front + [DELIMITER] + body == (head + [DELIMITER] + front) + [DELIMITER] + body;
    PreambleStopsAtSecondDelimiter(head + [DELIMITER] + front, body);
  }

  // ---------------------------------------------------------------------------
  // Decoding one line

  /** The first space-separated token of a line. */
  function Key(line: string): string {
    Split(line, ' ')[0]
  }

  /** The remaining space-separated tokens, joined again with single spaces. */
  function Value(line: string): string {
    Join(Split(line, ' ')[1..], " ")
  }

  /** The key is the line up to its first space and the value is the rest of the line after it, verbatim. */
  lemma KeyValueOfLine(line: string)
    ensures ' ' !in Key(line)
    ensures Key(line) == line[..IndexOf(line, ' ')]
    ensures IndexOf(line, ' ') < |line| ==> line == Key(line) + " " + Value(line)
    ensures IndexOf(line, ' ') == |line| ==> Key(line) == line && Value(line) == ""
  {
    SplitHead(line, ' ');
    var k := IndexOf(line, ' ');
    var parts := Split(line, ' ');
    assert Key(line) == line[..k];
    if k < |line| {
      assert [' '] == " ";
      assert Value(line) == line[k + 1..];
      CutAt(line, k);
    } else {
      assert parts[1..] == [];
    }
  }

  lemma CutAt(s: string, k: nat)
    requires k < |s|
    ensures s == s[..k] + [s[k]] + s[k + 1..]
  {
  }

  /** The value of the last line whose key is `key`. */
  function LastValue(lines: seq<string>, key: string): Option<string>
    decreases |lines|
  {
    if lines == [] then None
    else if Key(lines[|lines| - 1]) == key then Some(Value(lines[|lines| - 1]))
    else LastValue(lines[..|lines| - 1], key)
  }

  /** A key line in `b` hides every line of `a`; without one, `a` decides. */
  lemma {:induction false} LastValueAppend(a: seq<string>, b: seq<string>, key: string)
    ensures LastValue(a + b, key) == if LastValue(b, key).Some? then LastValue(b, key) else LastValue(a, key)
    decreases |b|
  {
    if b == [] {
      assert a + b == a;
    } else {
      var c := a + b;
      assert c[|c| - 1] == b[|b| - 1];
      assert c[..|c| - 1] == a + b[..|b| - 1];
      LastValueAppend(a, b[..|b| - 1], key);
    }
  }

  /** Without a line for `key`, nothing is decoded for it. */
  lemma {:induction false} LastValueAbsent(lines: seq<string>, key: string)
    requires forall i :: 0 <= i < |lines| ==> Key(lines[i]) != key
    ensures LastValue(lines, key) == None
    decreases |lines|
  {
    if lines != [] {
      LastValueAbsent(lines[..|lines| - 1], key);
    }
  }

  /** A later line for `key` overwrites an earlier one. */
  lemma LaterKeyWins(a: seq<string>, line: string, b: seq<string>, key: string)
    requires Key(line) == key
    requires forall i :: 0 <= i < |b| ==> Key(b[i]) != key
    ensures LastValue(a + [line] + b, key) == Some(Value(line))
  {
    LastValueAbsent(b, key);
    LastValueAppend(a + [line], b, key);
    LastValueAppend(a, [line], key);
    assert [line][..0] == [];
  }

  /** `parse_date`: an RFC 3339 instant, or the current time when the value is not one. */
  function ParseDate(value: string, now: Timestamp, ext: Externals): Timestamp {
    match ext.parseRfc3339(value)
    case Some(d) => d
    case None => now
  }

  /** A `tags:` value: split at every comma, each piece trimmed. */
  function Tags(value: string): (tags: seq<string>) {
    var pieces := Split(value, ',');
    seq(|pieces|, i requires 0 <= i < |pieces| => Trim(pieces[i]))
  }

  /** One tag per comma-separated piece, in order and with duplicates kept; no tag holds a comma or has whitespace at its ends. */
  lemma TagsSpec(value: string)
    ensures |Tags(value)| == multiset(value)[','] + 1
    ensures forall i :: 0 <= i < |Tags(value)| ==> ',' !in Tags(value)[i] && Trimmed(Tags(value)[i])
    ensures value == "" ==> Tags(value) == [""]
  {
    SplitCount(value, ',');
    SplitPiecesLackSeparator(value, ',');
    var pieces := Split(value, ',');
    forall i | 0 <= i < |pieces| ensures ',' !in Tags(value)[i] && Trimmed(Tags(value)[i]) {
      TrimmedPiece(pieces[i]);
    }
  }

  lemma SliceLacks(s: string, i: nat, j: nat, c: char)
    requires i <= j <= |s| && c !in s
    ensures c !in s[i..j]
  {
    var t := s[i..j];
    forall k | 0 <= k < |t| ensures t[k] != c {
      assert t[k] == s[i + k];
    }
  }

  /** Trimming a comma-free piece gives a comma-free, trimmed tag. */
  lemma TrimmedPiece(p: string)
    requires ',' !in p
    ensures ',' !in Trim(p) && Trimmed(Trim(p))
  {
    TrimSpec(p);
    var start := |p| - |TrimStart(p)|;
    SliceLacks(p, start, start + |Trim(p)|, ',');
  }

  /** A comma-joined list of comma-free pieces decodes to the pieces trimmed, in their order, duplicates kept. */
  lemma TagsOfPieces(pieces: seq<string>)
    requires |pieces| >= 1
    requires forall i :: 0 <= i < |pieces| ==> ',' !in pieces[i]
    ensures Tags(Join(pieces, ",")) == seq(|pieces|, i requires 0 <= i < |pieces| => Trim(pieces[i]))
  {
    SplitJoin(pieces, ',');
    assert [','] == ",";
  }

  /** A comma-joined list of trimmed, comma-free tags decodes back to that list. */
  lemma TagsOfJoin(tags: seq<string>)
    requires |tags| >= 1
    requires forall i :: 0 <= i < |tags| ==> ',' !in tags[i] && Trimmed(tags[i])
    ensures Tags(Join(tags, ",")) == tags
  {
    var joined := Join(tags, ",");
    SplitJoin(tags, ',');
    assert Split(joined, ',') == tags;
    var r := Tags(joined);
    forall i | 0 <= i < |tags| ensures r[i] == tags[i] {
      TrimIdentity(tags[i]);
    }
  }

  // ---------------------------------------------------------------------------
  // The decoded preamble and the entry

  /** Each field is the value of the last line for its key, or its default: the given clock reading, no tags, an empty title, no images, no description. */
  function DecodeLines(lines: seq<string>, now: Timestamp, ext: Externals): Meta {
    Meta(
      match LastValue(lines, DATE_KEY) case Some(v) => ParseDate(v, now, ext) case None => now,
      match LastValue(lines, TAGS_KEY) case Some(v) => Tags(v) case None => [],
      LastValue(lines, TITLE_KEY).GetOr(""),
      LastValue(lines, SHARE_IMAGE_KEY),
      LastValue(lines, HERO_IMAGE_KEY),
      LastValue(lines, DESCRIPTION_KEY))
  }

  /** The entry a source file yields. */
  function EntryOf(file: SourceFile, now: Timestamp, ext: Externals): FileEntry {
    var meta := DecodeLines(Preamble(Lines(file.text)), now, ext);
    var contents := ext.markdownToHtml(file.text);
    FileEntry(meta.date, ext.stripTags(contents), contents, meta.tags, meta.title,
              EntryUrl(file.path), meta.heroImage, meta.shareImage, meta.description)
  }

  /** Decoding after one more line: that line's field takes its value, the other fields keep theirs. */
  lemma DecodeStep(lines: seq<string>, i: nat, now: Timestamp, ext: Externals)
    requires i < |lines|
    ensures var line := lines[i];
      var m := DecodeLines(lines[..i], now, ext);
      DecodeLines(lines[..i + 1], now, ext) ==
        if Key(line) == DATE_KEY then m.(date := ParseDate(Value(line), now, ext))
        else if Key(line) == TAGS_KEY then m.(tags := Tags(Value(line)))
        else if Key(line) == TITLE_KEY then m.(title := Value(line))
        else if Key(line) == SHARE_IMAGE_KEY then m.(shareImage := Some(Value(line)))
        else if Key(line) == HERO_IMAGE_KEY then m.(heroImage := Some(Value(line)))
        else if Key(line) == DESCRIPTION_KEY then m.(description := Some(Value(line)))
        else m
  {
    assert lines[..i + 1][..i] == lines[..i];
  }

  /**
   * The preamble loop of `parse_entry`: counts delimiter lines, stops at the
   * second, and decodes every other line it passes.
   */
  method ScanPreamble(lines: seq<string>, now: Timestamp, ext: Externals) returns (meta: Meta)
    ensures meta == DecodeLines(Preamble(lines), now, ext)
  {
    var pubDate := now;
    var tagList: seq<string> := [];
    var title := "";
    var shareImage: Option<string> := None;
    var heroImage: Option<string> := None;
    var description: Option<string> := None;

    var sepCount := 0;
    var i := 0;
    while i < |lines|
      invariant i <= PreambleLength(lines)
      invariant sepCount == DelimCount(lines[..i]) <= 1
      invariant Meta(pubDate, tagList, title, shareImage, heroImage, description) == DecodeLines(lines[..i], now, ext)
    {
      var line := lines[i];
      assert lines[..i + 1][..i] == lines[..i];
      if line == DELIMITER {
        sepCount := sepCount + 1;
        if sepCount == 2 {
          if PreambleLength(lines) > i {
            DelimCountMonotone(lines, i + 1, PreambleLength(lines));
          }
          break;
        }
      }

      var elements := Split(line, ' ');
      var dataType := elements[0];
      var dataValue := Join(elements[1..], " ");
      DecodeStep(lines, i, now, ext);
      if dataType == DATE_KEY {
        pubDate := ParseDate(dataValue, now, ext);
      } else if dataType == TAGS_KEY {
        tagList := Tags(dataValue);
      } else if dataType == TITLE_KEY {
        title := dataValue;
      } else if dataType == SHARE_IMAGE_KEY {
        shareImage := Some(dataValue);
      } else if dataType == HERO_IMAGE_KEY {
        heroImage := Some(dataValue);
      } else if dataType == DESCRIPTION_KEY {
        description := Some(dataValue);
      }
      i := i + 1;
    }
    assert lines[..i] == Preamble(lines);
    meta := Meta(pubDate, tagList, title, shareImage, heroImage, description);
  }

  /** `parse_entry`: the decoded preamble, the output name and the rendered text, assembled into the entry. */
  method ParseEntry(file: SourceFile, now: Timestamp, ext: Externals) returns (entry: FileEntry)
    ensures entry == EntryOf(file, now, ext)
  {
    var meta := ScanPreamble(Lines(file.text), now, ext);
    var url := EntryUrl(file.path);
    var contents := ext.markdownToHtml(file.text);
    var rawText := ext.stripTags(contents);
    entry := FileEntry(meta.date, rawText, contents, meta.tags, meta.title, url, meta.heroImage, meta.shareImage, meta.description);
  }
}
