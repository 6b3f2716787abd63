/** Python's `%` operator on a string with the mapping `{'sprite': name}`,
    as `class_name` applies it to the `sprite_namespace` setting. */
module Templates {
  import opened Errors

  /** `%` with the mapping `{'sprite': name}`: `%(sprite)s` becomes the name,
      `%%` a percent sign; any other conversion is an error. */
  function Format(template: string, name: string): (r: Result<string>)
    ensures '%' !in template ==> r == Ok(template)
    ensures r.Err? ==> r.error == ValueError
    decreases |template|
  {
    if |template| == 0 then Ok(template)
    else if template[0] != '%' then
      var rest :- Format(template[1..], name);
      assert template == [template[0]] + template[1..];
      Ok([template[0]] + rest)
    else if |template| >= 10 && template[..10] == "%(sprite)s" then
      var rest :- Format(template[10..], name);
      Ok(name + rest)
    else if |template| >= 2 && template[1] == '%' then
      var rest :- Format(template[2..], name);
      Ok("%" + rest)
    else Err(ValueError)
  }

  /** `Format` after one more character in front. */
  function Prepend(prefix: string, r: Result<string>): Result<string> {
    match r
    case Ok(s) => Ok(prefix + s)
    case Err(e) => Err(e)
  }

  lemma FormatPlainChar(c: char, rest: string, name: string)
    requires c != '%'
    ensures Format([c] + rest, name) == Prepend([c], Format(rest, name))
  {
    var t := [c] + rest;
    assert t[0] == c && t[1..] == rest;
  }

  lemma FormatDirective(rest: string, name: string)
    ensures Format("%(sprite)s" + rest, name) == Prepend(name, Format(rest, name))
  {
    var t := "%(sprite)s" + rest;
    assert t[0] == '%' && |t| >= 10 && t[..10] == "%(sprite)s" && t[10..] == rest;
  }

  /** Two prefixes in turn are one prefix. */
  lemma PrependTwice(a: string, b: string, r: Result<string>)
    ensures Prepend(a, Prepend(b, r)) == Prepend(a + b, r)
  {
    match r
    case Ok(s) =>
      assert a + (b + s) == (a + b) + s;
    case Err(_) =>
  }

  /** Text before the first directive is copied; `%(sprite)s` is replaced by the name. */
  lemma {:induction false} FormatSprite(prefix: string, name: string, suffix: string)
    requires '%' !in prefix
    ensures Format(prefix + "%(sprite)s" + suffix, name) == Prepend(prefix + name, Format(suffix, name))
    decreases |prefix|
  {
    if |prefix| == 0 {
      assert prefix + "%(sprite)s" + suffix == "%(sprite)s" + suffix;
      FormatDirective(suffix, name);
      assert prefix + name == name;
    } else {
      var c, tail := prefix[0], prefix[1..];
      var rest := tail + "%(sprite)s" + suffix;
      assert c != '%' && '%' !in tail && prefix + "%(sprite)s" + suffix == [c] + rest by {
        assert prefix == [c] + tail;
      }
      calc {
        Format(prefix + "%(sprite)s" + suffix, name);
      == { FormatPlainChar(c, rest, name); }
        Prepend([c], Format(rest, name));
      == { FormatSprite(tail, name, suffix); }
        Prepend([c], Prepend(tail + name, Format(suffix, name)));
      == { PrependTwice([c], tail + name, Format(suffix, name)); }
        Prepend([c] + (tail + name), Format(suffix, name));
      == { assert [c] + (tail + name) == prefix + name by { assert prefix == [c] + tail; } }
        Prepend(prefix + name, Format(suffix, name));
      }
    }
  }

}

/** An image's file name, its pseudo-class and its CSS class name
    (glue/core.py, `Image.__init__` and `Image.class_name`). */
module Names {
  import opened Text
  import opened Options
  import opened Values
  import opened Errors
  import opened Padding
  import opened Templates

  /** `PSEUDO_CLASSES`. */
  const PseudoClasses: set<string> :=
    {"link", "visited", "active", "hover", "focus",
     "first-letter", "first-line", "first-child", "before", "after"}

  /** `CAMELCASE_SEPARATOR`. */
  const CamelcaseSeparator: string := "camelcase"

  // ---------------------------------------------------------------------
  // file name and extension

  /** The position of the last `c` in `s`, if any. */
  function LastIndex(s: string, c: char): (k: Option<nat>)
    ensures k.None? <==> c !in s
    ensures k.Some? ==> k.value < |s| && s[k.value] == c && c !in s[k.value + 1..]
    decreases |s|
  {
    if |s| == 0 then None
    else if s[|s| - 1] == c then Some(|s| - 1)
    else
      var k := LastIndex(s[..|s| - 1], c);
      assert s[..|s| - 1] + [s[|s| - 1]] == s;
      if k.Some? then
        assert s[k.value + 1..] == s[..|s| - 1][k.value + 1..] + [s[|s| - 1]];
        k
      else k
  }

  /** `name.rsplit('.', 1)` unpacked into file name and format: a name without
      a dot cannot be unpacked (a ValueError). */
  function SplitExtension(name: string): (r: Result<(string, string)>)
    ensures r.Err? <==> '.' !in name
    ensures r.Err? ==> r.error == ValueError
    ensures r.Ok? ==> name == r.value.0 + "." + r.value.1 && '.' !in r.value.1
  {
    match LastIndex(name, '.')
    case None => Err(ValueError)
    case Some(k) =>
      assert name == name[..k] + "." + name[k + 1..];
      Ok((name[..k], name[k + 1..]))
  }

  /** The last `c` of `a + [c] + b` is the one after `a` when `b` has none. */
  lemma {:induction false} LastIndexAppend(a: string, c: char, b: string)
    requires c !in b
    ensures LastIndex(a + [c] + b, c) == Some(|a|)
    decreases |b|
  {
    var s := a + [c] + b;
    if |b| > 0 {
      assert s[|s| - 1] == b[|b| - 1];
      assert s[..|s| - 1] == a + [c] + b[..|b| - 1];
      LastIndexAppend(a, c, b[..|b| - 1]);
    }
  }

  /** Splitting off the extension undoes appending one. */
  lemma SplitExtensionOfName(filename: string, format: string)
    requires '.' !in format
    ensures SplitExtension(filename + "." + format) == Ok((filename, format))
  {
    var name := filename + "." + format;
    assert name == filename + ['.'] + format;
    LastIndexAppend(filename, '.', format);
    assert name[..|filename|] == filename && name[|filename| + 1..] == format;
  }

  // ---------------------------------------------------------------------
  // pseudo-classes

  /** The pseudo-class names among the `_`-separated blocks of a file name,
      looked at only when the name has an underscore. */
  function PseudoCandidates(filename: string): (c: set<string>)
    ensures c <= PseudoClasses
    ensures '_' !in filename ==> c == {}
    ensures '_' in filename ==> forall t :: t in c <==> t in Split(filename, '_') && t in PseudoClasses
  {
    if '_' in filename then set t | t in Split(filename, '_') && t in PseudoClasses else {}
  }

  /** What `Image.__init__` may set `pseudo` to: `''` when there is no
      candidate, otherwise `':'` and one of them (Python takes the last element
      of a set converted to a list, so which one is not determined). */
  predicate IsPseudoFor(filename: string, pseudo: string) {
    var c := PseudoCandidates(filename);
    if c == {} then pseudo == ""
    else |pseudo| > 0 && pseudo[0] == ':' && pseudo[1..] in c
  }

  /** One admissible choice of pseudo-class. */
  ghost function ChoosePseudo(filename: string): (pseudo: string)
    ensures IsPseudoFor(filename, pseudo)
  {
    var c := PseudoCandidates(filename);
    if c == {} then "" else var t :| t in c; ":" + t
  }

  /** Lower-case letters and dashes, starting with a letter. */
  predicate IsPseudoWord(pc: string) {
    |pc| > 0 && 'a' <= pc[0] <= 'z' && forall i :: 0 <= i < |pc| ==> 'a' <= pc[i] <= 'z' || pc[i] == '-'
  }

  /** Every pseudo-class name is such a word. */
  lemma PseudoClassShape(pc: string)
    requires pc in PseudoClasses
    ensures IsPseudoWord(pc)
  {
  }

  /** Such a word has no underscore, is not padding and needs no cleaning. */
  lemma PseudoWordIsPlain(pc: string)
    requires IsPseudoWord(pc)
    ensures '_' !in pc && !IsDigit(pc[0]) && !IsPaddingBlock(pc)
    ensures AllNameChars(pc)
  {
    NotPaddingBlock(pc);
  }

  /** When exactly one block is a pseudo-class, that is the pseudo-class. */
  lemma SinglePseudo(filename: string, pc: string, pseudo: string)
    requires '_' in filename && pc in Split(filename, '_') && pc in PseudoClasses
    requires forall t :: t in Split(filename, '_') && t in PseudoClasses ==> t == pc
    requires IsPseudoFor(filename, pseudo)
    ensures pseudo == ":" + pc
  {
    assert pc in PseudoCandidates(filename);
    assert pseudo == [':'] + pseudo[1..];
  }

  /** A name without underscores never has a pseudo-class, even `hover` itself. */
  lemma NoUnderscoreNoPseudo(filename: string, pseudo: string)
    requires '_' !in filename && IsPseudoFor(filename, pseudo)
    ensures pseudo == ""
  {
  }

  // ---------------------------------------------------------------------
  // cleaning

  /** The characters `[\w\-_]` keeps. */
  predicate IsNameChar(c: char) { IsWordChar(c) || c == '-' }

  predicate AllNameChars(s: string) { forall i :: 0 <= i < |s| ==> IsNameChar(s[i]) }

  /** `re.sub(r'[^\w\-_]', '', s)`. */
  function CleanName(s: string): (r: string)
    ensures |r| <= |s| && AllNameChars(r)
    ensures AllNameChars(s) ==> r == s
    decreases |s|
  {
    if |s| == 0 then ""
    else (if IsNameChar(s[0]) then [s[0]] else []) + CleanName(s[1..])
  }

  /** Cleaning keeps every allowed character, as often as it occurs, and drops all others. */
  lemma {:induction false} CleanNameCounts(s: string, c: char)
    ensures multiset(CleanName(s))[c] == if IsNameChar(c) then multiset(s)[c] else 0
    decreases |s|
  {
    if |s| > 0 {
      CleanNameCounts(s[1..], c);
      assert s == [s[0]] + s[1..];
      assert multiset(s) == multiset{s[0]} + multiset(s[1..]);
    }
  }

  // ---------------------------------------------------------------------
  // class names

  /** The manager's settings `class_name` reads. */
  datatype NameSettings = NameSettings(
    ignoreFilenamePaddings: Value,
    separator: Value,
    spriteNamespace: Value,
    namespace: Value)

  /** The sprite-namespace component: none when the setting is false or empty,
      the formatted string when it is a string; any other truthy value cannot
      be formatted (a TypeError). */
  function SpriteComponent(spriteNamespace: Value, spriteName: string): (r: Result<seq<string>>)
    ensures !Truthy(spriteNamespace) ==> r == Ok([])
    ensures Truthy(spriteNamespace) && !spriteNamespace.Str? ==> r == Err(TypeError)
    ensures spriteNamespace.Str? && spriteNamespace.s != "" ==>
      match Format(spriteNamespace.s, CleanName(spriteName))
      case Ok(s) => r == Ok([s])
      case Err(e) => r == Err(e)
  {
    if !Truthy(spriteNamespace) then Ok([])
    else match spriteNamespace
      case Str(t) =>
        var s :- Format(t, CleanName(spriteName));
        Ok([s])
      case _ => Err(TypeError)
  }

  /** The image part of the class name before the pseudo-class is appended:
      every `_`+padding block and every `_`+pseudo-class is removed (unless
      file-name paddings are ignored, the padding block stays) and the result
      is cleaned. */
  function ImageName(filename: string, pseudo: string, ignoreFilenamePaddings: bool): string {
    CleanName(WithoutPseudo(Unpadded(filename, ignoreFilenamePaddings), pseudo))
  }

  /** The file name with every `_`+padding block removed, unless paddings are ignored. */
  function Unpadded(filename: string, ignoreFilenamePaddings: bool): string {
    var info := Join(PaddingInfo(filename), "-");
    if ignoreFilenamePaddings then filename
    else ReplaceAll(filename, if info == "" then "" else "_" + info, "")
  }

  /** The name with every `_`+pseudo-class removed. */
  function WithoutPseudo(name: string, pseudo: string): string {
    if pseudo == "" then name else ReplaceAll(name, "_" + pseudo[1..], "")
  }

  /** `n[:1].title() + n[1:]` for every component but the first. */
  function CamelCase(parts: seq<string>): (r: seq<string>)
    ensures |r| == |parts|
    ensures |parts| > 0 ==> r[0] == parts[0]
    ensures forall i :: 0 < i < |parts| ==> r[i] == Capitalize(parts[i])
  {
    seq(|parts|, i requires 0 <= i < |parts| => if i > 0 then Capitalize(parts[i]) else parts[i])
  }

  /** The namespace setting as a component: none when false or empty. */
  function NamespaceComponent(namespace: Value): seq<string>
    requires !Truthy(namespace) || namespace.Str?
  {
    if Truthy(namespace) then [namespace.s] else []
  }

  /** The class name from its image part `name` (pseudo-class included). */
  function Assemble(name: string, spriteName: string, s: NameSettings): (r: Result<string>)
    ensures Truthy(s.spriteNamespace) && !s.spriteNamespace.Str? ==> r == Err(TypeError)
    ensures SpriteComponent(s.spriteNamespace, spriteName).Ok? && !s.separator.Str? ==> r == Err(AttributeError)
    ensures r.Ok? ==> s.separator.Str? && (!Truthy(s.namespace) || s.namespace.Str?)
    ensures r.Ok? && s.separator != Str(CamelcaseSeparator) ==> EndsWith(r.value, name)
  {
    var sprite :- SpriteComponent(s.spriteNamespace, spriteName);
    if s.separator == Str(CamelcaseSeparator) then
      if Truthy(s.namespace) && !s.namespace.Str? then Err(TypeError)
      else Ok(Join(CamelCase(NamespaceComponent(s.namespace) + sprite + [name]), ""))
    else if !s.separator.Str? then Err(AttributeError)
    else if Truthy(s.namespace) && !s.namespace.Str? then Err(TypeError)
    else
      var init := NamespaceComponent(s.namespace) + sprite;
      JoinEndsWith(init, name, s.separator.s);
      Ok(Join(init + [name], s.separator.s))
  }

  /** `class_name`: namespace, sprite namespace and image name joined with the
      separator, or run together in camel case when the separator is
      `camelcase`. A sprite namespace that cannot be formatted fails first; a
      separator that is not a string has no `join` (an AttributeError), which
      is reached before a namespace of the wrong type (a TypeError). */
  function ClassName(filename: string, pseudo: string, spriteName: string, s: NameSettings): (r: Result<string>)
    ensures Truthy(s.spriteNamespace) && !s.spriteNamespace.Str? ==> r == Err(TypeError)
    ensures SpriteComponent(s.spriteNamespace, spriteName).Ok? && !s.separator.Str? ==> r == Err(AttributeError)
    ensures r.Ok? ==> s.separator.Str? && (!Truthy(s.namespace) || s.namespace.Str?)
    ensures r.Ok? && s.separator != Str(CamelcaseSeparator) ==>
      EndsWith(r.value, ImageName(filename, pseudo, Truthy(s.ignoreFilenamePaddings)) + pseudo)
  {
    Assemble(ImageName(filename, pseudo, Truthy(s.ignoreFilenamePaddings)) + pseudo, spriteName, s)
  }

  /** With a string separator other than `camelcase`, the class name is the
      namespace and then the formatted sprite namespace, each followed by the
      separator when it is set, then the image part and the pseudo-class. */
  lemma ClassNamePrefix(filename: string, pseudo: string, spriteName: string, s: NameSettings)
    requires s.separator.Str? && s.separator.s != CamelcaseSeparator
    requires !Truthy(s.namespace) || s.namespace.Str?
    requires !Truthy(s.spriteNamespace) ||
      (s.spriteNamespace.Str? && Format(s.spriteNamespace.s, CleanName(spriteName)).Ok?)
    ensures ClassName(filename, pseudo, spriteName, s) == Ok(
      (if Truthy(s.namespace) then s.namespace.s + s.separator.s else "")
      + (if Truthy(s.spriteNamespace) then Format(s.spriteNamespace.s, CleanName(spriteName)).value + s.separator.s else "")
      + (ImageName(filename, pseudo, Truthy(s.ignoreFilenamePaddings)) + pseudo))
  {
    var name := ImageName(filename, pseudo, Truthy(s.ignoreFilenamePaddings)) + pseudo;
    var sep := s.separator.s;
    var sprite := SpriteComponent(s.spriteNamespace, spriteName).value;
    var init := NamespaceComponent(s.namespace) + sprite;
    assert ClassName(filename, pseudo, spriteName, s) == Ok(Join(init + [name], sep));
    var ns := if Truthy(s.namespace) then s.namespace.s + sep else "";
    var sp := if Truthy(s.spriteNamespace) then sprite[0] + sep else "";
    JoinPrefix(NamespaceComponent(s.namespace), sprite, name, sep);
    assert Join(init + [name], sep) == ns + sp + name;
  }

  /** Joining at most one namespace and at most one sprite component before
      the image part. */
  lemma JoinPrefix(a: seq<string>, b: seq<string>, name: string, sep: string)
    requires |a| <= 1 && |b| <= 1
    ensures Join(a + b + [name], sep) ==
      (if |a| == 1 then a[0] + sep else "") + (if |b| == 1 then b[0] + sep else "") + name
  {
    if |a| == 1 && |b| == 1 {
      assert a + b + [name] == [a[0]] + [b[0], name];
      JoinCons(a[0], [b[0], name], sep);
      JoinCons(b[0], [name], sep);
      assert a[0] + sep + (b[0] + sep + name) == a[0] + sep + b[0] + sep + name;
    } else if |a| == 1 {
      assert a + b + [name] == [a[0]] + [name];
      JoinCons(a[0], [name], sep);
    } else if |b| == 1 {
      assert a + b + [name] == [b[0]] + [name];
      JoinCons(b[0], [name], sep);
    } else {
      assert a + b + [name] == [name];
    }
  }

  predicate EndsWith(s: string, suffix: string) {
    |suffix| <= |s| && s[|s| - |suffix|..] == suffix
  }

  /** A join ends with its last piece. */
  lemma {:induction false} JoinEndsWith(init: seq<string>, last: string, sep: string)
    ensures EndsWith(Join(init + [last], sep), last)
    decreases |init|
  {
    if |init| > 0 {
      JoinEndsWith(init[1..], last, sep);
      assert (init + [last])[1..] == init[1..] + [last];
      var tail := Join(init[1..] + [last], sep);
      assert Join(init + [last], sep) == init[0] + sep + tail;
    }
  }

  // ---------------------------------------------------------------------
  // the documented examples

  /** `command-line defaults: no ignoring, separator `-`, sprite namespace
      `%(sprite)s`, namespace `sprite`. */
  const DefaultNames := NameSettings(Bool(false), Str("-"), Str("%(sprite)s"), Str("sprite"))

  /** With the default settings the class name is `sprite-<sprite>-<image>`. */
  lemma DefaultClassName(filename: string, pseudo: string, spriteName: string)
    ensures ClassName(filename, pseudo, spriteName, DefaultNames) ==
      Ok("sprite-" + CleanName(spriteName) + "-" + (ImageName(filename, pseudo, false) + pseudo))
  {
    var name := ImageName(filename, pseudo, false) + pseudo;
    assert !Truthy(DefaultNames.ignoreFilenamePaddings);
    assert ClassName(filename, pseudo, spriteName, DefaultNames) == Assemble(name, spriteName, DefaultNames);
    DefaultAssemble(name, spriteName);
  }

  lemma DefaultAssemble(name: string, spriteName: string)
    ensures Assemble(name, spriteName, DefaultNames) == Ok("sprite-" + CleanName(spriteName) + "-" + name)
  {
    var n := CleanName(spriteName);
    SpriteNamespaceDefault(spriteName);
    var parts := ["sprite", n, name];
    assert NamespaceComponent(Str("sprite")) + [n] + [name] == parts;
    assert parts[1..][1..] == [name];
    assert Join(parts[1..][1..], "-") == name;
    assert Join(parts[1..], "-") == n + "-" + name;
    assert Join(parts, "-") == "sprite" + "-" + (n + "-" + name);
    var s := DefaultNames;
    assert s.separator == Str("-") && s.separator != Str(CamelcaseSeparator) && s.namespace == Str("sprite");
    assert Assemble(name, spriteName, s) == Ok(Join(parts, "-"));
    assert "sprite-" == "sprite" + "-";
    assert "sprite" + "-" + (n + "-" + name) == "sprite-" + n + "-" + name;
  }

  /** The default sprite namespace is the cleaned sprite name. */
  lemma SpriteNamespaceDefault(spriteName: string)
    ensures SpriteComponent(Str("%(sprite)s"), spriteName) == Ok([CleanName(spriteName)])
  {
    var n := CleanName(spriteName);
    FormatDirective("", n);
    assert "%(sprite)s" + "" == "%(sprite)s";
    assert Format("", n) == Ok("");
    assert n + "" == n;
  }

  /** Removing a pattern that starts with a character the prefix lacks. */
  lemma {:induction false} ReplaceAfterPrefix(a: string, pat: string, b: string)
    requires |pat| > 0 && pat[0] !in a
    ensures ReplaceAll(a + pat + b, pat, "") == a + ReplaceAll(b, pat, "")
    decreases |a|
  {
    var s := a + pat + b;
    if |a| == 0 {
      assert s[..|pat|] == pat && s[|pat|..] == b;
    } else {
      assert s[0] == a[0] && s[1..] == a[1..] + pat + b;
      if |s| >= |pat| {
        assert s[..|pat|] != pat by { assert s[0] != pat[0]; }
      }
      ReplaceAfterPrefix(a[1..], pat, b);
      assert [a[0]] + a[1..] == a;
    }
  }

  /** `_x` where `x` is a pseudo-class does not contain `_` followed by padding. */
  lemma PseudoKeepsPadding(pc: string, pad: string)
    requires IsPseudoWord(pc) && IsPaddingBlock(pad)
    ensures ReplaceAll("_" + pc, "_" + pad, "") == "_" + pc
  {
    forall i | 0 <= i <= |"_" + pc| - |"_" + pad| ensures !OccursAt("_" + pc, "_" + pad, i) {
      PaddingNotAt(pc, pad, i);
    }
    ReplaceAbsent("_" + pc, "_" + pad, "");
  }

  lemma PaddingNotAt(pc: string, pad: string, i: int)
    requires IsPseudoWord(pc) && IsPaddingBlock(pad)
    ensures !OccursAt("_" + pc, "_" + pad, i)
  {
    PaddingBlockStart(pad);
    var s := "_" + pc;
    var pat := "_" + pad;
    if 0 <= i && i + |pat| <= |s| {
      if i == 0 {
        assert s[i..i + |pat|][1] == pc[0] != pad[0] == pat[1];
      } else {
        assert s[i..i + |pat|][0] == pc[i - 1] != '_' == pat[0];
      }
    }
  }

  /** A padding block starts with a digit. */
  lemma PaddingBlockStart(pad: string)
    requires IsPaddingBlock(pad)
    ensures pad != "" && IsDigit(pad[0])
  {
    var runs := Split(pad, '-');
    SplitHead(pad, '-');
    assert |runs[0]| > 0 && IsDigit(runs[0][0]);
  }

  /** The first piece of a split starts the string. */
  lemma SplitHead(s: string, sep: char)
    ensures |Split(s, sep)[0]| > 0 ==> |s| > 0 && s[0] == Split(s, sep)[0][0]
  {
  }

  /** `animals/cat.png` is `.sprite-animals-cat`: a name with no blocks keeps its name. */
  lemma PlainName(base: string)
    requires '_' !in base && AllNameChars(base)
    ensures ImageName(base, "", false) == base
  {
    SplitWithout(base, '_');
    assert PaddingInfo(base) == [];
    assert Unpadded(base, false) == base;
  }

  /** `animals/cow_20.png` is `.sprite-animals-cow`: the padding block is dropped. */
  lemma PaddedName(base: string, pad: string)
    requires '_' !in base && AllNameChars(base)
    requires '_' !in pad && IsPaddingBlock(pad)
    ensures ImageName(base + "_" + pad, "", false) == base
  {
    var f := base + "_" + pad;
    assert PaddingInfo(f) == Split(pad, '-') by {
      PaddingOfTwoBlocks(base, pad);
    }
    assert ReplaceAll(f, "_" + pad, "") == base by {
      assert f == base + ("_" + pad) + "";
      ReplaceAfterPrefix(base, "_" + pad, "");
    }
    UnpadBlock(f, pad);
    assert ImageName(f, "", false) == CleanName(Unpadded(f, false));
  }

  /** What is removed when the padding came from block `pad`. */
  lemma UnpadBlock(filename: string, pad: string)
    requires IsPaddingBlock(pad) && PaddingInfo(filename) == Split(pad, '-')
    ensures Unpadded(filename, false) == ReplaceAll(filename, "_" + pad, "")
  {
    JoinSplit(pad, '-');
    assert ['-'] == "-";
    PaddingBlockStart(pad);
  }

  /** Removing `_` and a pseudo-class from the end of a base name. */
  lemma DropPseudo(base: string, pc: string)
    requires '_' !in base
    ensures WithoutPseudo(base + "_" + pc, ":" + pc) == base
  {
    assert (":" + pc)[1..] == pc;
    assert base + "_" + pc == base + ("_" + pc) + "";
    ReplaceAfterPrefix(base, "_" + pc, "");
  }

  /** `animals/cat_hover.png` is `.sprite-animals-cat:hover` (every pseudo-class
      name is a pseudo word, by `PseudoClassShape`). */
  lemma PseudoName(base: string, pc: string)
    requires '_' !in base && AllNameChars(base) && IsPseudoWord(pc)
    ensures ImageName(base + "_" + pc, ":" + pc, false) == base
  {
    PseudoWordIsPlain(pc);
    var filename := base + "_" + pc;
    SplitBlocks(base, pc);
    SplitWithout(pc, '_');
    var blocks := Split(filename, '_');
    assert blocks == [base, pc];
    assert LastPaddingBlock(blocks, 1) == 0;
    assert PaddingInfo(filename) == [];
    assert Unpadded(filename, false) == filename;
    DropPseudo(base, pc);
  }

  /** `animals/cow_20_hover.png` is `.sprite-animals-cow:hover`: padding and
      pseudo-class are both removed. */
  lemma PaddedPseudoName(base: string, pad: string, pc: string)
    requires '_' !in base && AllNameChars(base)
    requires '_' !in pad && IsPaddingBlock(pad)
    requires IsPseudoWord(pc)
    ensures ImageName(base + "_" + pad + "_" + pc, ":" + pc, false) == base
  {
    UnpadBeforePseudo(base, pad, pc);
    DropPseudo(base, pc);
  }

  lemma UnpadBeforePseudo(base: string, pad: string, pc: string)
    requires '_' !in base
    requires '_' !in pad && IsPaddingBlock(pad)
    requires IsPseudoWord(pc)
    ensures Unpadded(base + "_" + pad + "_" + pc, false) == base + "_" + pc
  {
    PseudoWordIsPlain(pc);
    PaddingOfThreeBlocks(base, pad, pc);
    UnpadBlock(base + "_" + pad + "_" + pc, pad);
    RemovePaddingBlock(base, pad, pc);
  }

  /** Removing `_`+padding from `base_pad_pc` leaves `base_pc`. */
  lemma RemovePaddingBlock(base: string, pad: string, pc: string)
    requires '_' !in base && IsPaddingBlock(pad) && IsPseudoWord(pc)
    ensures ReplaceAll(base + "_" + pad + "_" + pc, "_" + pad, "") == base + "_" + pc
  {
    RegroupBlocks(base, pad, pc);
    ReplaceAfterPrefix(base, "_" + pad, "_" + pc);
    PseudoKeepsPadding(pc, pad);
    assert base + ("_" + pc) == base + "_" + pc;
  }

  lemma RegroupBlocks(a: string, b: string, c: string)
    ensures a + "_" + b + "_" + c == a + ("_" + b) + ("_" + c)
  {
  }

  /** With `camelcase` as separator the components are run together and all
      but the first are capitalised. */
  lemma CamelCaseClassName(filename: string, pseudo: string, spriteName: string, s: NameSettings)
    requires s.separator == Str(CamelcaseSeparator)
    requires s.spriteNamespace == Str("%(sprite)s") && s.namespace.Str? && s.namespace.s != ""
    ensures ClassName(filename, pseudo, spriteName, s) ==
      Ok(s.namespace.s + (Capitalize(CleanName(spriteName))
         + Capitalize(ImageName(filename, pseudo, Truthy(s.ignoreFilenamePaddings)) + pseudo)))
  {
    CamelCaseAssemble(ImageName(filename, pseudo, Truthy(s.ignoreFilenamePaddings)) + pseudo, spriteName, s);
  }

  lemma CamelCaseAssemble(name: string, spriteName: string, s: NameSettings)
    requires s.separator == Str(CamelcaseSeparator)
    requires s.spriteNamespace == Str("%(sprite)s") && s.namespace.Str? && s.namespace.s != ""
    ensures Assemble(name, spriteName, s) ==
      Ok(s.namespace.s + (Capitalize(CleanName(spriteName)) + Capitalize(name)))
  {
    SpriteNamespaceDefault(spriteName);
    var n := CleanName(spriteName);
    var parts := [s.namespace.s, n, name];
    assert NamespaceComponent(s.namespace) + [n] + [name] == parts;
    var camel := CamelCase(parts);
    assert camel == [s.namespace.s, Capitalize(n), Capitalize(name)];
    assert camel[1..][1..] == [Capitalize(name)];
    assert Join(camel[1..], "") == Capitalize(n) + Capitalize(name) by {
      assert Capitalize(n) + "" == Capitalize(n);
    }
    assert s.namespace.s + "" == s.namespace.s;
    assert Join(camel, "") == s.namespace.s + (Capitalize(n) + Capitalize(name));
    assert Assemble(name, spriteName, s) == Ok(Join(camel, ""));
  }
}
