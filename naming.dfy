/**
 * How the builder names things from paths: the output file of an entry
 * (the last path component with `.md` replaced by `.html`) and the name a
 * template is registered under (the file name up to its first `.`), with the
 * loop that registers every template of the template directory.
 */
module Naming {
  import opened Text

  /**
   * A path as the builder sees it: what `to_str()` gives for the whole path,
   * and the components that `iter()` yields.
   */
  datatype Path = Path(text: string, components: seq<string>)

  const MD_EXT: string := ".md"
  const HTML_EXT: string := ".html"

  /** The output name of an entry: the last component with every `.md` made `.html`, or the whole path when it has no component. */
  function EntryUrl(path: Path): string {
    if path.components == [] then path.text
    else Replace(path.components[|path.components| - 1], MD_EXT, HTML_EXT)
  }

  /** The name a template file is registered under: its last component up to the first `.`, or the whole path when it has no component. */
  function TemplateName(path: Path): string {
    if path.components == [] then path.text
    else Split(path.components[|path.components| - 1], '.')[0]
  }

  // ---------------------------------------------------------------------------
  // Properties of the `.md` replacement

  /** A string starting with a character other than `.` holds `.md` only where its tail does. */
  lemma NotDotHead(c: char, y: string)
    requires c != '.' && !Occurs(y, MD_EXT)
    ensures !Occurs([c] + y, MD_EXT)
  {
    var s := [c] + y;
    assert s[1..] == y;
    if |s| >= 3 {
      assert s[..3][0] == c;
    }
  }

  /** After the replacement, a leading character other than `.` was already there. */
  lemma ReplaceHead(t: string, c: char)
    requires c != '.'
    requires var r := Replace(t, MD_EXT, HTML_EXT); r != [] && r[0] == c
    ensures t != [] && t[0] == c
    ensures Replace(t, MD_EXT, HTML_EXT) == [c] + Replace(t[1..], MD_EXT, HTML_EXT)
  {
    if |t| < 3 {
      assert Replace(t[1..], MD_EXT, HTML_EXT) == t[1..];
      assert t == [t[0]] + t[1..];
    }
  }

  /** `.html` followed by a string without `.md` holds no `.md`. */
  lemma HtmlHead(y: string)
    requires !Occurs(y, MD_EXT)
    ensures !Occurs(HTML_EXT + y, MD_EXT)
  {
    var s := HTML_EXT + y;
    assert s[5..] == y;
    DropNotDot(s, 4);
    DropNotDot(s, 3);
    DropNotDot(s, 2);
    DropNotDot(s, 1);
    assert s[..3][1] == 'h';
  }

  /** A suffix of `s` starting with a character other than `.` holds `.md` only where the suffix one shorter does. */
  lemma DropNotDot(s: string, k: nat)
    requires k < |s| && s[k] != '.' && !Occurs(s[k + 1..], MD_EXT)
    ensures !Occurs(s[k..], MD_EXT)
  {
    NotDotHead(s[k], s[k + 1..]);
    assert s[k..] == [s[k]] + s[k + 1..];
  }

  /** The replacement leaves no `.md` behind: every occurrence, including one formed across a replaced one, is gone. */
  lemma {:induction false} ReplaceLeavesNoMd(s: string)
    ensures !Occurs(Replace(s, MD_EXT, HTML_EXT), MD_EXT)
    decreases |s|
  {
    if |s| < 3 {
    } else if s[..3] == MD_EXT {
      ReplaceLeavesNoMd(s[3..]);
      HtmlHead(Replace(s[3..], MD_EXT, HTML_EXT));
    } else {
      var y := Replace(s[1..], MD_EXT, HTML_EXT);
      ReplaceLeavesNoMd(s[1..]);
      if s[0] != '.' {
        NotDotHead(s[0], y);
      } else {
        var z := [s[0]] + y;
        assert z[1..] == y;
        if |z| >= 3 && z[..3] == MD_EXT {
          assert y[0] == 'm' && y[1] == 'd';
          ReplaceHead(s[1..], 'm');
          ReplaceHead(s[2..], 'd');
          assert false;
        }
      }
    }
  }

  /** The replacement at a position holding `.md`. */
  lemma ReplaceAtMd(s: string)
    requires |s| >= 3 && s[..3] == MD_EXT
    ensures Replace(s, MD_EXT, HTML_EXT) == HTML_EXT + Replace(s[3..], MD_EXT, HTML_EXT)
  {
  }

  /** A leading `.md` becomes `.html`. */
  lemma MdFirst(rest: string)
    ensures Replace(MD_EXT + rest, MD_EXT, HTML_EXT) == HTML_EXT + Replace(rest, MD_EXT, HTML_EXT)
  {
    var s := MD_EXT + rest;
    assert s[..3] == MD_EXT && s[3..] == rest;
    ReplaceAtMd(s);
  }

  /** The replacement at a position not holding `.md`. */
  lemma ReplacePastChar(s: string)
    requires |s| >= 3 && s[..3] != MD_EXT
    ensures Replace(s, MD_EXT, HTML_EXT) == [s[0]] + Replace(s[1..], MD_EXT, HTML_EXT)
  {
  }

  /** The first `.md` after a stretch without one becomes `.html`, and the replacement carries on after it. */
  lemma {:induction false} ReplaceBeforeMd(a: string, rest: string)
    requires !Occurs(a, MD_EXT)
    ensures Replace(a + MD_EXT + rest, MD_EXT, HTML_EXT) == a + HTML_EXT + Replace(rest, MD_EXT, HTML_EXT)
    decreases |a|
  {
    var s := a + MD_EXT + rest;
    var t := Replace(rest, MD_EXT, HTML_EXT);
    if a == [] {
      assert s == MD_EXT + rest;
      MdFirst(rest);
    } else {
      NoMdAtFront(a, rest);
      NoMdTail(a);
      ReplacePastChar(s);
      ReplaceBeforeMd(a[1..], rest);
      assert s[0] == a[0];
      assert Replace(s, MD_EXT, HTML_EXT) == [a[0]] + (a[1..] + HTML_EXT + t);
      assert [a[0]] + (a[1..] + HTML_EXT + t) == a + HTML_EXT + t;
    }
  }

  /** A string without `.md` has a tail without `.md`. */
  lemma NoMdTail(a: string)
    requires a != [] && !Occurs(a, MD_EXT)
    ensures !Occurs(a[1..], MD_EXT)
  {
  }

  /** Before the first `.md` of `a + ".md" + rest`, with `a` non-empty, the replacement steps over one character of `a`. */
  lemma NoMdAtFront(a: string, rest: string)
    requires a != [] && !Occurs(a, MD_EXT)
    ensures var s := a + MD_EXT + rest; |s| >= 3 && s[..3] != MD_EXT && s[1..] == a[1..] + MD_EXT + rest
  {
    var s := a + MD_EXT + rest;
    assert s[1..] == a[1..] + MD_EXT + rest;
    if |a| >= 3 {
      assert s[..3] == a[..3];
    } else {
      assert s[|a|] == '.' && MD_EXT[|a|] != '.';
      assert s[..3][|a|] != MD_EXT[|a|];
    }
  }

  /** Pieces without `.md`, joined by `.md`, come out joined by `.html`: every `.md` is replaced and nothing else changes. */
  lemma {:induction false} ReplaceJoin(pieces: seq<string>)
    requires forall i :: 0 <= i < |pieces| ==> !Occurs(pieces[i], MD_EXT)
    ensures Replace(Join(pieces, MD_EXT), MD_EXT, HTML_EXT) == Join(pieces, HTML_EXT)
    decreases |pieces|
  {
    if |pieces| == 1 {
      ReplaceAbsent(pieces[0], MD_EXT, HTML_EXT);
    } else if |pieces| > 1 {
      ReplaceJoin(pieces[1..]);
      ReplaceBeforeMd(pieces[0], Join(pieces[1..], MD_EXT));
    }
  }

  /** An entry at `dir/name.md`, with no other `.md` in `name`, is written to `name.html`. */
  lemma EntryUrlOfMarkdown(path: Path, name: string)
    requires path.components != [] && path.components[|path.components| - 1] == name + MD_EXT
    requires !Occurs(name, MD_EXT)
    ensures EntryUrl(path) == name + HTML_EXT
  {
    ReplaceBeforeMd(name, []);
    assert name + MD_EXT + [] == name + MD_EXT;
    assert name + HTML_EXT + [] == name + HTML_EXT;
  }

  /** A last component made of pieces without `.md`, joined by `.md`, is written to those pieces joined by `.html`. */
  lemma EntryUrlOfPieces(path: Path, pieces: seq<string>)
    requires path.components != [] && path.components[|path.components| - 1] == Join(pieces, MD_EXT)
    requires forall i :: 0 <= i < |pieces| ==> !Occurs(pieces[i], MD_EXT)
    ensures EntryUrl(path) == Join(pieces, HTML_EXT)
  {
    ReplaceJoin(pieces);
  }

  /** A last component without `.md` is the output name unchanged. */
  lemma EntryUrlWithoutMd(path: Path)
    requires path.components != []
    requires !Occurs(path.components[|path.components| - 1], MD_EXT)
    ensures EntryUrl(path) == path.components[|path.components| - 1]
  {
    ReplaceAbsent(path.components[|path.components| - 1], MD_EXT, HTML_EXT);
  }

  /** An output name derived from a component never contains `.md`. */
  lemma EntryUrlHasNoMd(path: Path)
    requires path.components != []
    ensures !Occurs(EntryUrl(path), MD_EXT)
  {
    ReplaceLeavesNoMd(path.components[|path.components| - 1]);
  }

  /** The template name is the last component up to, not including, its first `.`. */
  lemma TemplateNameIsStem(path: Path)
    requires path.components != []
    ensures var last := path.components[|path.components| - 1];
      TemplateName(path) == last[..IndexOf(last, '.')] && '.' !in TemplateName(path)
  {
    SplitHead(path.components[|path.components| - 1], '.');
  }

  // ---------------------------------------------------------------------------
  // Template registration

  /** No template at a position in `(i, k)` has the name of the template at `i`. */
  predicate LastOfItsNameBefore(templates: seq<Path>, i: nat, k: nat)
    requires i < k <= |templates|
  {
    forall j :: i < j < k ==> TemplateName(templates[j]) != TemplateName(templates[i])
  }

  /** No later template has the name of the template at `i`. */
  predicate LastOfItsName(templates: seq<Path>, i: nat)
    requires i < |templates|
  {
    LastOfItsNameBefore(templates, i, |templates|)
  }

  /** `registry` is what registering `templates[..k]` in order leaves. */
  predicate RegisteredUpTo(templates: seq<Path>, k: nat, registry: map<string, Path>)
    requires k <= |templates|
  {
    && (forall i :: 0 <= i < k ==> TemplateName(templates[i]) in registry)
    && (forall name :: name in registry ==> exists i :: 0 <= i < k && TemplateName(templates[i]) == name)
    && (forall i :: 0 <= i < k && LastOfItsNameBefore(templates, i, k) ==> registry[TemplateName(templates[i])] == templates[i])
  }

  lemma RegisterStepNames(templates: seq<Path>, k: nat, registry: map<string, Path>)
    requires k < |templates| && RegisteredUpTo(templates, k, registry)
    ensures var r := registry[TemplateName(templates[k]) := templates[k]];
      forall i :: 0 <= i < k + 1 ==> TemplateName(templates[i]) in r
  {
  }

  lemma RegisterStepOrigins(templates: seq<Path>, k: nat, registry: map<string, Path>)
    requires k < |templates| && RegisteredUpTo(templates, k, registry)
    ensures var r := registry[TemplateName(templates[k]) := templates[k]];
      forall name :: name in r ==> exists i :: 0 <= i < k + 1 && TemplateName(templates[i]) == name
  {
    var n := TemplateName(templates[k]);
    var r := registry[n := templates[k]];
    forall name | name in r ensures exists i :: 0 <= i < k + 1 && TemplateName(templates[i]) == name {
      if name != n {
        assert name in registry;
        var i :| 0 <= i < k && TemplateName(templates[i]) == name;
        assert 0 <= i < k + 1;
      }
    }
  }

  lemma RegisterStepLast(templates: seq<Path>, k: nat, registry: map<string, Path>)
    requires k < |templates| && RegisteredUpTo(templates, k, registry)
    ensures var r := registry[TemplateName(templates[k]) := templates[k]];
      forall i :: 0 <= i < k + 1 && LastOfItsNameBefore(templates, i, k + 1) ==> r[TemplateName(templates[i])] == templates[i]
  {
    var r := registry[TemplateName(templates[k]) := templates[k]];
    forall i | 0 <= i < k + 1 && LastOfItsNameBefore(templates, i, k + 1)
      ensures r[TemplateName(templates[i])] == templates[i]
    {
      if i < k {
        assert TemplateName(templates[k]) != TemplateName(templates[i]);
        assert LastOfItsNameBefore(templates, i, k);
      }
    }
  }

  /** Registering one more template keeps `RegisteredUpTo`. */
  lemma RegisterStep(templates: seq<Path>, k: nat, registry: map<string, Path>)
    requires k < |templates| && RegisteredUpTo(templates, k, registry)
    ensures RegisteredUpTo(templates, k + 1, registry[TemplateName(templates[k]) := templates[k]])
  {
    RegisterStepNames(templates, k, registry);
    RegisterStepOrigins(templates, k, registry);
    RegisterStepLast(templates, k, registry);
  }

  /**
   * `registry` is what registering `templates` in order leaves: every name is
   * registered, nothing else is, and each name maps to the last template
   * carrying it.
   */
  predicate Registers(templates: seq<Path>, registry: map<string, Path>) {
    RegisteredUpTo(templates, |templates|, registry)
  }

  /** Every template has a last template of its name, at or after it. */
  lemma {:induction false} LastOfNameExists(templates: seq<Path>, i: nat)
    requires i < |templates|
    ensures exists j :: i <= j < |templates| && TemplateName(templates[j]) == TemplateName(templates[i]) && LastOfItsName(templates, j)
    decreases |templates| - i
  {
    if !LastOfItsName(templates, i) {
      var j :| i < j < |templates| && TemplateName(templates[j]) == TemplateName(templates[i]);
      LastOfNameExists(templates, j);
    }
  }

  /** `Registers` leaves no freedom: one list of templates has one registry. */
  lemma RegistersUnique(templates: seq<Path>, r1: map<string, Path>, r2: map<string, Path>)
    requires Registers(templates, r1) && Registers(templates, r2)
    ensures r1 == r2
  {
    forall name | name in r1 ensures name in r2 && r1[name] == r2[name] {
      var i :| 0 <= i < |templates| && TemplateName(templates[i]) == name;
      LastOfNameExists(templates, i);
      var j :| i <= j < |templates| && TemplateName(templates[j]) == name && LastOfItsName(templates, j);
    }
    forall name | name in r2 ensures name in r1 {
      var i :| 0 <= i < |templates| && TemplateName(templates[i]) == name;
    }
  }

  /** The registry after registering `templates` one by one into an empty one. */
  function RegistryOf(templates: seq<Path>): map<string, Path>
    decreases |templates|
  {
    if templates == [] then map[]
    else
      var last := templates[|templates| - 1];
      RegistryOf(templates[..|templates| - 1])[TemplateName(last) := last]
  }

  /** Registering one template at a time does what `Registers` describes. */
  lemma {:induction false} RegistryOfRegisters(templates: seq<Path>, k: nat)
    requires k <= |templates|
    ensures RegisteredUpTo(templates, k, RegistryOf(templates[..k]))
    decreases k
  {
    if k > 0 {
      var r := RegistryOf(templates[..k - 1]);
      assert templates[..k][..k - 1] == templates[..k - 1];
      assert RegistryOf(templates[..k]) == r[TemplateName(templates[k - 1]) := templates[k - 1]];
      RegistryOfRegisters(templates, k - 1);
      RegisterStep(templates, k - 1, r);
    }
  }

  /**
   * The registration loop of `Builder::new`: each template file is registered
   * under its name, a later file replacing an earlier one of the same name.
   */
  method RegisterTemplates(templates: seq<Path>) returns (registry: map<string, Path>)
    ensures Registers(templates, registry)
  {
    registry := map[];
    var k := 0;
    while k < |templates|
      invariant 0 <= k <= |templates|
      invariant registry == RegistryOf(templates[..k])
    {
      assert templates[..k + 1][..k] == templates[..k];
      registry := registry[TemplateName(templates[k]) := templates[k]];
      k := k + 1;
    }
    assert templates[..k] == templates;
    RegistryOfRegisters(templates, k);
  }
}
