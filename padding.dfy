/** Per-image padding (glue/core.py, `Image._padding_info`, `_generate_padding`,
    `padding`, `horizontal_padding`, `vertical_padding`). A file name such as
    `cow_1-2-3.png` carries its own padding; otherwise the sprite's `padding`
    setting, a CSS-like string such as `"10px 5px"`, applies. Values are in
    source pixels, in the order top, right, bottom, left. */
module Padding {
  import opened Text
  import opened Options
  import opened Values
  import opened Errors

  /** A block matching `PADDING_REGEXP`, `^(\d+-?){,3}\d+$`: one to four
      non-empty runs of decimal digits separated by single dashes. (The
      optional dash lets a run be cut into several groups, so the pattern
      accepts exactly these strings.) */
  predicate IsPaddingBlock(block: string) {
    var runs := Split(block, '-');
    |runs| <= 4 && forall i :: 0 <= i < |runs| ==> |runs[i]| > 0 && AllDigits(runs[i])
  }

  /** Searching from block `k` down to block 1: the last padding block, or 0 if none. */
  function LastPaddingBlock(blocks: seq<string>, k: nat): (j: nat)
    requires k < |blocks|
    ensures j <= k
    ensures j > 0 ==> IsPaddingBlock(blocks[j])
    ensures forall i :: j < i <= k && i > 0 ==> !IsPaddingBlock(blocks[i])
  {
    if k == 0 then 0
    else if IsPaddingBlock(blocks[k]) then k
    else LastPaddingBlock(blocks, k - 1)
  }

  /** `_padding_info`: of the `_`-separated blocks of the file name after the
      first, the last one that is a padding block, split at its dashes; `[]`
      when there is none. The first block is never read as padding. */
  function PaddingInfo(filename: string): (info: seq<string>)
    ensures info == [] || (1 <= |info| <= 4 && forall i :: 0 <= i < |info| ==> |info[i]| > 0 && AllDigits(info[i]))
    ensures var blocks := Split(filename, '_');
      info == [] <==> forall i :: 1 <= i < |blocks| ==> !IsPaddingBlock(blocks[i])
    ensures var blocks := Split(filename, '_');
      info != [] ==>
        exists j :: 1 <= j < |blocks| && IsPaddingBlock(blocks[j]) && info == Split(blocks[j], '-')
          && forall i :: j < i < |blocks| ==> !IsPaddingBlock(blocks[i])
  {
    var blocks := Split(filename, '_');
    var j := LastPaddingBlock(blocks, |blocks| - 1);
    if j == 0 then [] else Split(blocks[j], '-')
  }

  /** The block a non-empty padding info was read from: joining it back with
      dashes gives the block (what `class_name` strips from the name). */
  lemma PaddingInfoBlock(filename: string) returns (j: nat)
    requires PaddingInfo(filename) != []
    ensures 1 <= j < |Split(filename, '_')|
    ensures Split(filename, '_')[j] == Join(PaddingInfo(filename), "-")
  {
    var blocks := Split(filename, '_');
    j :| 1 <= j < |blocks| && IsPaddingBlock(blocks[j]) && PaddingInfo(filename) == Split(blocks[j], '-');
    JoinSplit(blocks[j], '-');
    assert ['-'] == "-";
  }

  /** What `_generate_padding` receives: the raw setting string, or the list
      read from the file name. */
  datatype PaddingSpec = Raw(text: string) | Parts(parts: seq<string>)

  /** The token list `_generate_padding` expands: a string loses every `px`
      and is split at whitespace; a list is taken as it is. */
  function PaddingTokens(p: PaddingSpec): seq<string> {
    match p
    case Raw(text) => Words(ReplaceAll(text, "px", ""))
    case Parts(parts) => parts
  }

  /** `map(int, tokens)`: a ValueError at the first token that is not an integer. */
  function ParseAll(tokens: seq<string>): (r: Result<seq<int>>)
    ensures r.Ok? <==> forall i :: 0 <= i < |tokens| ==> ParseInt(tokens[i]).Some?
    ensures r.Ok? ==> |r.value| == |tokens| && forall i :: 0 <= i < |tokens| ==> r.value[i] == ParseInt(tokens[i]).value
    ensures r.Err? ==> r.error == ValueError
  {
    if |tokens| == 0 then Ok([])
    else match ParseInt(tokens[0])
      case None => Err(ValueError)
      case Some(v) =>
        match ParseAll(tokens[1..])
        case Err(e) => Err(e)
        case Ok(vs) => Ok([v] + vs)
  }

  /** The list-level expansion: 4 as is, 3 repeats the right, 2 and 1 repeat
      the whole list; any other length is the default `'0'` four times. */
  function Expand(tokens: seq<string>): (r: seq<string>)
    ensures |r| == 4
    ensures |tokens| == 4 ==> r == tokens
    ensures |tokens| == 3 ==> r == [tokens[0], tokens[1], tokens[2], tokens[1]]
    ensures |tokens| == 2 ==> r == [tokens[0], tokens[1], tokens[0], tokens[1]]
    ensures |tokens| == 1 ==> r == [tokens[0], tokens[0], tokens[0], tokens[0]]
    ensures (|tokens| == 0 || |tokens| > 4) ==> r == ["0", "0", "0", "0"]
  {
    if |tokens| == 4 then tokens
    else if |tokens| == 3 then tokens + [tokens[1]]
    else if |tokens| == 2 then tokens + tokens
    else if |tokens| == 1 then tokens + tokens + tokens + tokens
    else ["0", "0", "0", "0"]
  }

  /** `_generate_padding`: the expansion of the tokens, read as integers; a
      ValueError when one of them is not an integer. */
  function GeneratePadding(p: PaddingSpec): (r: Result<seq<int>>)
    ensures r.Ok? ==> |r.value| == 4
    ensures r.Err? ==> r.error == ValueError
    ensures var e := Expand(PaddingTokens(p));
      r.Ok? ==> forall i :: 0 <= i < 4 ==> ParseInt(e[i]) == Some(r.value[i])
    ensures var ts := PaddingTokens(p);
      r.Ok? <==> (|ts| == 0 || |ts| > 4 || forall i :: 0 <= i < |ts| ==> ParseInt(ts[i]).Some?)
  {
    var ts := PaddingTokens(p);
    var e := Expand(ts);
    ExpansionCoversTokens(ts);
    ParseAll(e)
  }

  /** Every token of a list of one to four is used by the expansion, and the
      expansion uses nothing else. */
  lemma ExpansionCoversTokens(ts: seq<string>)
    ensures (forall i :: 0 <= i < 4 ==> ParseInt(Expand(ts)[i]).Some?) <==>
            (|ts| == 0 || |ts| > 4 || forall i :: 0 <= i < |ts| ==> ParseInt(ts[i]).Some?)
  {
    var e := Expand(ts);
    if |ts| == 0 || |ts| > 4 {
      ZeroParses();
    } else if |ts| == 4 {
    } else if |ts| == 3 {
      assert e[0] == ts[0] && e[1] == ts[1] && e[2] == ts[2] && e[3] == ts[1];
    } else if |ts| == 2 {
      assert e[0] == ts[0] && e[1] == ts[1] && e[2] == ts[0] && e[3] == ts[1];
    } else {
      assert e[0] == ts[0] && e[1] == ts[0] && e[2] == ts[0] && e[3] == ts[0];
    }
  }

  /** The four values by number of tokens given: `[a,b,c,d]`, `[a,b,c,b]`,
      `[a,b,a,b]`, `[a,a,a,a]`, and `[0,0,0,0]` for any other count. */
  lemma ExpansionTable(p: PaddingSpec)
    requires GeneratePadding(p).Ok?
    ensures var ts := PaddingTokens(p);
      var r := GeneratePadding(p).value;
      && (forall i :: 0 <= i < |ts| && |ts| <= 4 ==> ParseInt(ts[i]) == Some(r[i]))
      && (|ts| == 3 ==> r[3] == r[1])
      && (|ts| == 2 ==> r[2] == r[0] && r[3] == r[1])
      && (|ts| == 1 ==> r[1] == r[0] && r[2] == r[0] && r[3] == r[0])
      && ((|ts| == 0 || |ts| > 4) ==> r == [0, 0, 0, 0])
  {
    var ts := PaddingTokens(p);
    var r := GeneratePadding(p).value;
    var e := Expand(ts);
    assert forall i :: 0 <= i < 4 ==> ParseInt(e[i]) == Some(r[i]);
    if |ts| == 0 || |ts| > 4 {
      ZeroParses();
      assert r == [r[0], r[1], r[2], r[3]];
    }
  }

  lemma ZeroParses()
    ensures ParseInt("0") == Some(0)
  {
    assert Strip("0") == "0";
    assert AllDigits("0");
  }

  /** `int(d)` of a string of digits is its value. */
  lemma ParseDigits(s: string)
    requires |s| > 0 && AllDigits(s)
    ensures ParseInt(s) == Some(DigitsValue(s))
  {
    assert !HasSpace(s) by {
      forall i | 0 <= i < |s| ensures !IsSpace(s[i]) { assert IsDigit(s[i]); }
    }
    StripNoSpace(s);
    assert IsDigit(s[0]);
  }

  /** Padding written in a file name always parses: four non-negative values. */
  lemma FilenamePaddingParses(filename: string)
    requires PaddingInfo(filename) != []
    ensures var r := GeneratePadding(Parts(PaddingInfo(filename)));
      r.Ok? && forall i :: 0 <= i < 4 ==> r.value[i] >= 0
  {
    var info := PaddingInfo(filename);
    assert 1 <= |info| <= 4;
    assert PaddingTokens(Parts(info)) == info;
    forall i | 0 <= i < |info| ensures ParseInt(info[i]) == Some(DigitsValue(info[i])) {
      ParseDigits(info[i]);
    }
    assert GeneratePadding(Parts(info)).Ok?;
    var r := GeneratePadding(Parts(info)).value;
    var e := Expand(info);
    assert forall i :: 0 <= i < 4 ==> ParseInt(e[i]) == Some(r[i]);
    forall i | 0 <= i < 4 ensures r[i] >= 0 {
      var k := ExpandedFrom(info, i);
      assert ParseInt(info[k]) == Some(DigitsValue(info[k]));
    }
  }

  /** Each expanded value of one to four tokens is one of the tokens. */
  lemma ExpandedFrom(ts: seq<string>, i: int) returns (k: int)
    requires 1 <= |ts| <= 4 && 0 <= i < 4
    ensures 0 <= k < |ts| && Expand(ts)[i] == ts[k]
  {
    if |ts| == 4 {
      k := i;
    } else if |ts| == 3 {
      k := if i == 3 then 1 else i;
    } else if |ts| == 2 {
      k := i % 2;
    } else {
      k := 0;
    }
  }

  /** The sprite's `padding` setting: a string goes through `_generate_padding`;
      any other value makes `len()` raise a TypeError. */
  function SettingPadding(setting: Value): (r: Result<seq<int>>)
    ensures setting.Str? ==> r == GeneratePadding(Raw(setting.s))
    ensures !setting.Str? ==> r == Err(TypeError)
  {
    match setting
    case Str(s) => GeneratePadding(Raw(s))
    case _ => Err(TypeError)
  }

  /** `Image.padding`: the file name's padding, unless it has none or
      `ignore_filename_paddings` is set; then the sprite's setting. */
  function ImagePadding(filename: string, ignoreFilenamePaddings: bool, setting: Value): (r: Result<seq<int>>)
    ensures r.Ok? ==> |r.value| == 4
    ensures (PaddingInfo(filename) == [] || ignoreFilenamePaddings) ==> r == SettingPadding(setting)
    ensures PaddingInfo(filename) != [] && !ignoreFilenamePaddings ==>
      r == GeneratePadding(Parts(PaddingInfo(filename))) && r.Ok?
  {
    var info := PaddingInfo(filename);
    if info == [] || ignoreFilenamePaddings then SettingPadding(setting)
    else
      var r := GeneratePadding(Parts(info));
      FilenamePaddingParses(filename);
      r
  }

  /** Whether the image's padding comes from the sprite's setting. */
  predicate UsesSetting(filename: string, ignoreFilenamePaddings: bool) {
    PaddingInfo(filename) == [] || ignoreFilenamePaddings
  }

  /** `horizontal_padding`: right plus left. */
  function HorizontalPadding(p: seq<int>): int
    requires |p| == 4
  {
    p[1] + p[3]
  }

  /** `vertical_padding`: top plus bottom. */
  function VerticalPadding(p: seq<int>): int
    requires |p| == 4
  {
    p[0] + p[2]
  }

  /** What the expansion means for the two sums, by number of values given. */
  lemma PaddingSums(p: PaddingSpec)
    requires GeneratePadding(p).Ok?
    ensures var n := |PaddingTokens(p)|;
      var r := GeneratePadding(p).value;
      && (n == 1 ==> HorizontalPadding(r) == 2 * r[0] && VerticalPadding(r) == 2 * r[0])
      && (n == 2 ==> HorizontalPadding(r) == 2 * r[1] && VerticalPadding(r) == 2 * r[0])
      && (n == 3 ==> HorizontalPadding(r) == 2 * r[1] && VerticalPadding(r) == r[0] + r[2])
      && ((n == 0 || n > 4) ==> HorizontalPadding(r) == 0 && VerticalPadding(r) == 0)
  {
    var r := GeneratePadding(p).value;
    ExpansionTable(p);
    assert HorizontalPadding(r) == r[1] + r[3] && VerticalPadding(r) == r[0] + r[2];
  }

  /** A name cut at underscores, block by block. */
  lemma SplitBlocks(a: string, rest: string)
    requires '_' !in a
    ensures Split(a + "_" + rest, '_') == [a] + Split(rest, '_')
  {
    assert "_" == ['_'];
    SplitAtSeparator(a, '_', rest);
  }

  /** A name of two blocks whose second is padding. */
  lemma PaddingOfTwoBlocks(a: string, b: string)
    requires '_' !in a && '_' !in b && IsPaddingBlock(b)
    ensures PaddingInfo(a + "_" + b) == Split(b, '-')
  {
    SplitBlocks(a, b);
    SplitWithout(b, '_');
    var blocks := Split(a + "_" + b, '_');
    assert blocks == [a, b];
    assert LastPaddingBlock(blocks, 1) == 1;
  }

  /** A name of three blocks whose second is padding and whose third is not. */
  lemma PaddingOfThreeBlocks(a: string, b: string, c: string)
    requires '_' !in a && '_' !in b && '_' !in c && IsPaddingBlock(b) && !IsPaddingBlock(c)
    ensures PaddingInfo(a + "_" + b + "_" + c) == Split(b, '-')
  {
    assert a + "_" + b + "_" + c == a + "_" + (b + "_" + c);
    SplitBlocks(b, c);
    SplitWithout(c, '_');
    SplitBlocks(a, b + "_" + c);
    var blocks := Split(a + "_" + b + "_" + c, '_');
    assert blocks == [a, b, c];
    assert LastPaddingBlock(blocks, 2) == 1;
  }

  /** `cow_20` pads by 20 on every side. */
  lemma ExampleOneValue()
    ensures PaddingInfo("cow_20") == ["20"]
  {
    SplitWithout("20", '-');
    assert IsPaddingBlock("20");
    PaddingOfTwoBlocks("cow", "20");
    assert "cow" + "_" + "20" == "cow_20";
  }

  lemma DashedThree()
    ensures Split("1-2-3", '-') == ["1", "2", "3"]
  {
    assert "1-2-3" == "1" + ['-'] + ("2" + ['-'] + "3");
    assert "2" + ['-'] + "3" == "2-3";
    SplitAtSeparator("2", '-', "3");
    SplitWithout("3", '-');
    assert Split("2-3", '-') == ["2", "3"];
    SplitAtSeparator("1", '-', "2-3");
  }

  /** `cow_1-2-3` carries three values. */
  lemma ExampleThreeValues()
    ensures PaddingInfo("cow_1-2-3") == ["1", "2", "3"]
  {
    assert IsPaddingBlock("1-2-3") && Split("1-2-3", '-') == ["1", "2", "3"] by {
      DashedThree();
    }
    PaddingOfTwoBlocks("cow", "1-2-3");
    ThreeValuesName();
  }

  /** A name without underscores has no padding. */
  lemma ExampleNoPadding()
    ensures PaddingInfo("cow") == []
    ensures PaddingInfo("20") == []
  {
    SplitWithout("cow", '_');
    SplitWithout("20", '_');
  }

  /** A block starting with something other than a digit is not padding. */
  lemma NotPaddingBlock(b: string)
    requires |b| > 0 && !IsDigit(b[0])
    ensures !IsPaddingBlock(b)
  {
    var runs := Split(b, '-');
    if b[0] == '-' {
      assert b == [] + ['-'] + b[1..];
      SplitAtSeparator([], '-', b[1..]);
      assert runs[0] == [];
    } else {
      assert runs[0][0] == b[0];
    }
  }

  /** Blocks after the padding block are not padding: `cow_20_hover` still pads by 20. */
  lemma ExampleLaterBlock(name: string)
    requires name == "cow" + "_" + "20" + "_" + "hover"
    ensures name == "cow_20_hover"
    ensures PaddingInfo(name) == ["20"]
  {
    assert IsPaddingBlock("20") by {
      SplitWithout("20", '-');
    }
    assert !IsPaddingBlock("hover") by {
      NotPaddingBlock("hover");
    }
    assert Split("20", '-') == ["20"] by {
      SplitWithout("20", '-');
    }
    PaddingOfThreeBlocks("cow", "20", "hover");
    LaterBlockName();
  }

  lemma LaterBlockName()
    ensures "cow" + "_" + "20" + "_" + "hover" == "cow_20_hover"
  {
  }

  lemma ThreeValuesName()
    ensures "cow" + "_" + "1-2-3" == "cow_1-2-3"
  {
  }
}
