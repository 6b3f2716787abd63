/** The pixel ratios a sprite is generated for, and the names of the image
    files generated for them (glue/core.py, `Sprite.__init__`,
    `__get_reference`, `image_path`, `filename`, `max_ratio`). Ratios are
    whole numbers here. */
module Ratios {
  import opened Text
  import opened Options
  import opened Values
  import opened Errors

  /** Strictly ascending: a sorted list without repetitions. */
  predicate Increasing(xs: seq<int>) {
    forall i, j :: 0 <= i < j < |xs| ==> xs[i] < xs[j]
  }

  /** Adding one element to a set held as a strictly ascending list. */
  function AddRatio(x: int, xs: seq<int>): (r: seq<int>)
    requires Increasing(xs)
    ensures Increasing(r)
    ensures forall y :: y in r <==> y == x || y in xs
    decreases |xs|
  {
    if |xs| == 0 then [x]
    else if x < xs[0] then [x] + xs
    else if x == xs[0] then xs
    else
      var rest := AddRatio(x, xs[1..]);
      var r := [xs[0]] + rest;
      assert Increasing(r) by {
        assert forall y :: y in rest ==> xs[0] < y;
        forall i, j | 0 <= i < j < |r| ensures r[i] < r[j] {
          assert r[j] == rest[j - 1] && rest[j - 1] in rest;
          if i > 0 {
            assert r[i] == rest[i - 1];
          }
        }
      }
      r
  }

  /** `sorted(set(vs))`. */
  function SortedSet(vs: seq<int>): (r: seq<int>)
    ensures Increasing(r)
    ensures forall y :: y in r <==> y in vs
    decreases |vs|
  {
    if |vs| == 0 then []
    else
      assert forall y :: y in vs <==> y == vs[0] || y in vs[1..];
      AddRatio(vs[0], SortedSet(vs[1..]))
  }

  /** `[float(r.strip()) for r in pieces if r.strip()]`: the blank pieces are
      skipped, any other piece must be a number (else a ValueError). */
  function RatioValues(pieces: seq<string>): (r: Result<seq<int>>)
    ensures r.Err? ==> r.error == ValueError
    ensures r.Ok? <==> forall i :: 0 <= i < |pieces| && Strip(pieces[i]) != "" ==> ParseDecimal(Strip(pieces[i])).Some?
    decreases |pieces|
  {
    if |pieces| == 0 then Ok([])
    else if Strip(pieces[0]) == "" then RatioValues(pieces[1..])
    else match ParseDecimal(Strip(pieces[0]))
      case None => Err(ValueError)
      case Some(v) =>
        var rest :- RatioValues(pieces[1..]);
        Ok([v] + rest)
  }

  /** The values read are exactly those of the non-blank pieces. */
  lemma {:induction false} RatioValuesMembers(pieces: seq<string>, v: int)
    requires RatioValues(pieces).Ok?
    ensures v in RatioValues(pieces).value <==>
      exists i :: 0 <= i < |pieces| && Strip(pieces[i]) != "" && ParseDecimal(Strip(pieces[i])) == Some(v)
    decreases |pieces|
  {
    if |pieces| > 0 {
      RatioValuesMembers(pieces[1..], v);
      if v in RatioValues(pieces).value {
        if Strip(pieces[0]) != "" && ParseDecimal(Strip(pieces[0])) == Some(v) {
        } else {
          var i :| 0 <= i < |pieces[1..]| && Strip(pieces[1..][i]) != "" && ParseDecimal(Strip(pieces[1..][i])) == Some(v);
          assert pieces[i + 1] == pieces[1..][i];
        }
      } else {
        forall i | 0 <= i < |pieces| && Strip(pieces[i]) != ""
          ensures ParseDecimal(Strip(pieces[i])) != Some(v)
        {
          if i > 0 {
            assert pieces[i] == pieces[1..][i - 1];
          }
        }
      }
    }
  }

  /** The sprite's ratios: the comma-separated `ratios` setting, `2` when
      `retina` is set, and always `1`, ascending without repetitions. A
      setting that is not a string has no `split` (an AttributeError). */
  function SpriteRatios(ratios: Value, retina: Value): (r: Result<seq<int>>)
    ensures !ratios.Str? ==> r == Err(AttributeError)
    ensures ratios.Str? ==> (r.Ok? <==> RatioValues(Split(ratios.s, ',')).Ok?)
    ensures r.Err? ==> r.error == AttributeError || r.error == ValueError
    ensures r.Ok? ==> Increasing(r.value) && 1 in r.value
    ensures r.Ok? ==> forall x :: x in r.value <==>
      x == 1 || (Truthy(retina) && x == 2) || x in RatioValues(Split(ratios.s, ',')).value
  {
    if !ratios.Str? then Err(AttributeError)
    else
      var vs :- RatioValues(Split(ratios.s, ','));
      var base := SortedSet(vs);
      var withRetina := if Truthy(retina) then AddRatio(2, base) else base;
      Ok(AddRatio(1, withRetina))
  }

  /** With the default settings (`ratios` empty, no `retina`) there is one
      ratio, 1; with `retina` the ratios are 1 and 2. */
  lemma DefaultRatios(empty: string)
    requires empty == ""
    ensures SpriteRatios(Str(empty), Bool(false)) == Ok([1])
    ensures SpriteRatios(Str(empty), Bool(true)) == Ok([1, 2])
  {
    assert Split(empty, ',') == [""];
    assert Strip("") == "";
    assert RatioValues(Split(empty, ',')) == Ok([]);
    assert AddRatio(2, []) == [2];
    assert AddRatio(1, [2]) == [1, 2];
  }

  /** `max_ratio`: the largest ratio, the last of the ascending list. */
  function MaxRatio(ratios: seq<int>): (m: int)
    requires Increasing(ratios) && 1 in ratios
    ensures m in ratios && m >= 1
    ensures forall x :: x in ratios ==> x <= m
  {
    ratios[|ratios| - 1]
  }

  /** `__get_reference`: `@<ratio>x`, and nothing for ratio 1. */
  function Reference(ratio: int): string {
    var reference := "@" + IntToString(ratio) + "x";
    if reference == "@1x" then "" else reference
  }

  /** The reference is empty exactly for ratio 1 and starts with `@` otherwise. */
  lemma ReferenceOfOne(ratio: int)
    ensures Reference(ratio) == "" <==> ratio == 1
    ensures ratio != 1 ==> Reference(ratio) == "@" + IntToString(ratio) + "x"
  {
    var one := IntToString(1);
    assert one == "1" by {
      assert NatToString(1) == "1";
    }
    if "@" + IntToString(ratio) + "x" == "@1x" {
      assert IntToString(ratio) == ("@" + IntToString(ratio) + "x")[1..|"@" + IntToString(ratio) + "x"| - 1];
      assert IntToString(ratio) == one;
      IntToStringInjective(ratio, 1);
    }
  }

  /** Different ratios get different references. */
  lemma ReferenceInjective(a: int, b: int)
    requires Reference(a) == Reference(b)
    ensures a == b
  {
    ReferenceOfOne(a);
    ReferenceOfOne(b);
    if a != 1 && b != 1 {
      var ra := "@" + IntToString(a) + "x";
      var rb := "@" + IntToString(b) + "x";
      assert IntToString(a) == ra[1..|ra| - 1];
      assert IntToString(b) == rb[1..|rb| - 1];
      IntToStringInjective(a, b);
    }
  }

  /** `s[:n]`. */
  function Take(s: string, n: nat): (r: string)
    ensures |r| == if |s| < n then |s| else n
    ensures r <= s
  {
    if |s| < n then s else s[..n]
  }

  /** `filename`: the sprite's name, followed by `_` and six characters of the
      hash when `cachebuster_filename` is set. */
  function SpriteFilename(name: string, hash: string, cachebusterFilename: Value): (r: string)
    ensures !Truthy(cachebusterFilename) ==> r == name
    ensures Truthy(cachebusterFilename) ==> r == name + "_" + Take(hash, 6)
  {
    if Truthy(cachebusterFilename) then name + "_" + Take(hash, 6) else name
  }

  /** `image_path(ratio, full=False)`: the file name and its reference, as PNG. */
  function ImageFilename(filename: string, ratio: int): string {
    filename + Reference(ratio) + ".png"
  }

  /** The image generated for each ratio has a file of its own. */
  lemma ImageFilenamesDistinct(filename: string, a: int, b: int)
    requires a != b
    ensures ImageFilename(filename, a) != ImageFilename(filename, b)
  {
    if ImageFilename(filename, a) == ImageFilename(filename, b) {
      var fa := ImageFilename(filename, a);
      var fb := ImageFilename(filename, b);
      assert |Reference(a)| == |Reference(b)|;
      assert Reference(a) == fa[|filename|..|fa| - 4];
      assert Reference(b) == fb[|filename|..|fb| - 4];
      ReferenceInjective(a, b);
    }
  }

  /** Ratio 1 writes the sprite's plain file name; ratio 2 writes `@2x`. */
  lemma ImageFilenameExamples(filename: string)
    ensures ImageFilename(filename, 1) == filename + ".png"
    ensures ImageFilename(filename, 2) == filename + "@2x.png"
  {
    ReferenceOfOne(1);
    ReferenceOfOne(2);
    assert NatToString(2) == "2";
  }

  /** `[x for x in rs if keep(x)]`. */
  function Keep(rs: seq<int>, keep: int -> bool): (r: seq<int>)
    ensures |r| <= |rs|
    ensures forall x :: x in r <==> x in rs && keep(x)
    ensures Increasing(rs) ==> Increasing(r)
    decreases |rs|
  {
    if |rs| == 0 then []
    else
      var n := |rs| - 1;
      var init := Keep(rs[..n], keep);
      assert forall x :: x in rs <==> x in rs[..n] || x == rs[n];
      assert Increasing(rs) ==> Increasing(rs[..n]) && forall x :: x in init ==> x < rs[n] by {
        if Increasing(rs) {
          forall x | x in init ensures x < rs[n] {
            var k :| 0 <= k < n && rs[..n][k] == x;
            assert rs[k] == x;
          }
        }
      }
      if keep(rs[n]) then
        assert Increasing(rs) ==> forall i :: 0 <= i < |init| ==> init[i] < rs[n] by {
          if Increasing(rs) {
            forall i | 0 <= i < |init| ensures init[i] < rs[n] {
              assert init[i] in init;
            }
          }
        }
        init + [rs[n]]
      else init
  }

  /** Keeping everything keeps the list. */
  lemma {:induction false} KeepAll(rs: seq<int>, keep: int -> bool)
    requires forall i :: 0 <= i < |rs| ==> keep(rs[i])
    ensures Keep(rs, keep) == rs
    decreases |rs|
  {
    if |rs| > 0 {
      var n := |rs| - 1;
      var init, last := rs[..n], rs[n];
      assert forall i :: 0 <= i < n ==> init[i] == rs[i];
      assert keep(last);
      KeepAll(init, keep);
      KeepSnoc(init, last, keep);
      InitLast(rs);
    }
  }

  /** Keeping nothing leaves the empty list. */
  lemma {:induction false} KeepNone(rs: seq<int>, keep: int -> bool)
    requires forall i :: 0 <= i < |rs| ==> !keep(rs[i])
    ensures Keep(rs, keep) == []
    decreases |rs|
  {
    if |rs| > 0 {
      var n := |rs| - 1;
      var init := rs[..n];
      assert forall i :: 0 <= i < n ==> init[i] == rs[i];
      KeepNone(init, keep);
      assert Keep(rs, keep) == Keep(init, keep);
    }
  }

  /** A non-empty list is its prefix followed by its last element. */
  lemma InitLast(rs: seq<int>)
    requires |rs| > 0
    ensures rs[..|rs| - 1] + [rs[|rs| - 1]] == rs
  {
  }

  /** One more element at the end. */
  lemma KeepSnoc(rs: seq<int>, x: int, keep: int -> bool)
    ensures Keep(rs + [x], keep) == if keep(x) then Keep(rs, keep) + [x] else Keep(rs, keep)
  {
    assert (rs + [x])[..|rs|] == rs;
  }

  /** The loop that builds `[x for x in rs if keep(x)]` by appending. */
  method Select(rs: seq<int>, keep: int -> bool) returns (kept: seq<int>)
    ensures kept == Keep(rs, keep)
  {
    kept := [];
    var i := 0;
    while i < |rs|
      invariant 0 <= i <= |rs|
      invariant kept == Keep(rs[..i], keep)
    {
      assert rs[..i + 1] == rs[..i] + [rs[i]];
      KeepSnoc(rs[..i], rs[i], keep);
      if keep(rs[i]) {
        kept := kept + [rs[i]];
      }
      i := i + 1;
    }
    assert rs[..i] == rs;
  }
}
