/** Class-name collisions: `Sprite.validate` within one sprite and
    `BaseManager.validate` across all the sprites of a manager
    (glue/core.py). */
module Validation {
  import opened Text
  import opened Values
  import opened Errors
  import opened Names
  import opened Images

  /** `set(xs)`. */
  function Elements(xs: seq<string>): set<string> {
    set x | x in xs
  }

  /** `xs.count(x)`. */
  function Count(xs: seq<string>, x: string): nat {
    multiset(xs)[x]
  }

  /** `len(set(xs)) == len(xs)` holds exactly when no name repeats. */
  lemma {:induction false} DistinctIffCardinality(xs: seq<string>)
    ensures |Elements(xs)| <= |xs|
    ensures |Elements(xs)| == |xs| <==> Distinct(xs)
    decreases |xs|
  {
    if |xs| > 0 {
      var n := |xs| - 1;
      var init := xs[..n];
      DistinctIffCardinality(init);
      assert xs == init + [xs[n]];
      assert Elements(xs) == Elements(init) + {xs[n]};
      if xs[n] in init {
        var k :| 0 <= k < n && init[k] == xs[n];
        assert xs[k] == xs[n];
        assert Elements(xs) == Elements(init);
      } else {
        assert xs[n] !in Elements(init);
        assert Distinct(xs) <==> Distinct(init) by {
          assert forall i :: 0 <= i < n ==> init[i] == xs[i];
        }
      }
    }
  }

  /** A name at two places is counted at least twice. */
  lemma CountTwice(xs: seq<string>, i: int, j: int)
    requires 0 <= i < j < |xs| && xs[i] == xs[j]
    ensures Count(xs, xs[i]) >= 2
  {
    assert xs == xs[..i] + [xs[i]] + xs[i + 1..j] + [xs[j]] + xs[j + 1..];
  }

  /** `[i.class_name for i in images]`: the first image whose class name fails
      stops it. */
  function ClassNames(imgs: seq<Image>, spriteName: string, s: NameSettings): (r: Result<seq<string>>)
    ensures r.Ok? <==> forall i :: 0 <= i < |imgs| ==> ClassName(imgs[i].filename, imgs[i].pseudo, spriteName, s).Ok?
    ensures r.Ok? ==> |r.value| == |imgs|
    ensures r.Ok? ==> forall i :: 0 <= i < |imgs| ==>
      r.value[i] == ClassName(imgs[i].filename, imgs[i].pseudo, spriteName, s).value
    ensures r.Err? ==> exists i :: 0 <= i < |imgs| && ClassName(imgs[i].filename, imgs[i].pseudo, spriteName, s) == Err(r.error)
  {
    MapResults(imgs, (img: Image) => ClassName(img.filename, img.pseudo, spriteName, s))
  }

  /** `[i for i in images if all.count(names[i]) > 1]`, where `names` are the
      images' class names. */
  function Duplicates(imgs: seq<Image>, names: seq<string>, all: seq<string>): (r: seq<Image>)
    requires |names| == |imgs|
    ensures |r| <= |imgs|
    ensures forall x :: x in r ==> exists i :: 0 <= i < |imgs| && imgs[i] == x && Count(all, names[i]) >= 2
    decreases |imgs|
  {
    if |imgs| == 0 then []
    else
      var rest := Duplicates(imgs[1..], names[1..], all);
      assert forall x :: x in rest ==> exists i :: 0 < i < |imgs| && imgs[i] == x && Count(all, names[i]) >= 2 by {
        forall x | x in rest ensures exists i :: 0 < i < |imgs| && imgs[i] == x && Count(all, names[i]) >= 2 {
          var i :| 0 <= i < |imgs[1..]| && imgs[1..][i] == x && Count(all, names[1..][i]) >= 2;
          assert imgs[i + 1] == x && names[i + 1] == names[1..][i];
        }
      }
      if Count(all, names[0]) > 1 then [imgs[0]] + rest else rest
  }

  /** Two images whose names repeat are both reported. */
  lemma {:induction false} DuplicatesBoth(imgs: seq<Image>, names: seq<string>, all: seq<string>, i: int, j: int)
    requires |names| == |imgs| && 0 <= i < j < |imgs|
    requires Count(all, names[i]) >= 2 && Count(all, names[j]) >= 2
    ensures |Duplicates(imgs, names, all)| >= 2
    decreases |imgs|
  {
    if i == 0 {
      DuplicatesOne(imgs[1..], names[1..], all, j - 1);
    } else {
      DuplicatesBoth(imgs[1..], names[1..], all, i - 1, j - 1);
    }
  }

  /** An image whose name repeats is reported. */
  lemma {:induction false} DuplicatesOne(imgs: seq<Image>, names: seq<string>, all: seq<string>, i: int)
    requires |names| == |imgs| && 0 <= i < |imgs|
    requires Count(all, names[i]) >= 2
    ensures imgs[i] in Duplicates(imgs, names, all)
    decreases |imgs|
  {
    if i > 0 {
      DuplicatesOne(imgs[1..], names[1..], all, i - 1);
      assert imgs[1..][i - 1] == imgs[i];
    }
  }

  /** The paths of the images, in order. */
  function Paths(imgs: seq<Image>): (r: seq<string>)
    ensures |r| == |imgs|
    ensures forall i :: 0 <= i < |imgs| ==> r[i] == imgs[i].path
  {
    seq(|imgs|, i requires 0 <= i < |imgs| => imgs[i].path)
  }

  /** A reported image's path is among the reported paths. */
  lemma PathOfMember(imgs: seq<Image>, img: Image)
    requires img in imgs
    ensures img.path in Paths(imgs)
  {
    var k :| 0 <= k < |imgs| && imgs[k] == img;
    assert Paths(imgs)[k] == img.path;
  }

  /** Every reported path is the path of a reported image. */
  lemma MemberOfPath(imgs: seq<Image>, p: string)
    requires p in Paths(imgs)
    ensures exists img :: img in imgs && img.path == p
  {
    var k :| 0 <= k < |imgs| && Paths(imgs)[k] == p;
    assert imgs[k] in imgs;
  }

  /** `Sprite.validate`: the class names must be computable and pairwise
      different; otherwise MultipleImagesWithSameName names the images whose
      class name occurs more than once (by their paths). */
  function ValidateNames(imgs: seq<Image>, spriteName: string, s: NameSettings): (r: Result<bool>)
    ensures r.Ok? ==> r.value
    ensures r.Ok? <==> ClassNames(imgs, spriteName, s).Ok? && Distinct(ClassNames(imgs, spriteName, s).value)
    ensures ClassNames(imgs, spriteName, s).Err? ==> r == Err(ClassNames(imgs, spriteName, s).error)
    ensures ClassNames(imgs, spriteName, s).Ok? && r.Err? ==>
      r.error.MultipleImagesWithSameName? && |r.error.paths| >= 2
  {
    var names :- ClassNames(imgs, spriteName, s);
    DistinctIffCardinality(names);
    if |Elements(names)| != |imgs| then
      var i, j :| 0 <= i < j < |names| && names[i] == names[j];
      CountTwice(names, i, j);
      DuplicatesBoth(imgs, names, names, i, j);
      Err(MultipleImagesWithSameName(Paths(Duplicates(imgs, names, names))))
    else Ok(true)
  }

  /** The error of `Sprite.validate` reports the path of every image whose
      class name repeats, and no other path. */
  lemma ValidateNamesReports(imgs: seq<Image>, spriteName: string, s: NameSettings)
    requires ClassNames(imgs, spriteName, s).Ok? && ValidateNames(imgs, spriteName, s).Err?
    ensures var names := ClassNames(imgs, spriteName, s).value;
      var paths := ValidateNames(imgs, spriteName, s).error.paths;
      && (forall i :: 0 <= i < |imgs| && Count(names, names[i]) >= 2 ==> imgs[i].path in paths)
      && (forall p :: p in paths ==> exists i :: 0 <= i < |imgs| && imgs[i].path == p && Count(names, names[i]) >= 2)
  {
    var names := ClassNames(imgs, spriteName, s).value;
    DistinctIffCardinality(names);
    var dup := Duplicates(imgs, names, names);
    assert ValidateNames(imgs, spriteName, s).error.paths == Paths(dup);
    forall k | 0 <= k < |imgs| && Count(names, names[k]) >= 2 ensures imgs[k].path in Paths(dup) {
      DuplicatesOne(imgs, names, names, k);
      PathOfMember(dup, imgs[k]);
    }
    forall p | p in Paths(dup)
      ensures exists k :: 0 <= k < |imgs| && imgs[k].path == p && Count(names, names[k]) >= 2
    {
      MemberOfPath(dup, p);
    }
  }

  // ---------------------------------------------------------------------
  // across sprites

  /** `reduce(lambda x, y: x + y, xss)`. */
  function Concat(xss: seq<seq<string>>): (r: seq<string>)
    decreases |xss|
  {
    if |xss| == 0 then [] else xss[0] + Concat(xss[1..])
  }

  /** The images of one sprite and its name. */
  datatype Group = Group(images: seq<Image>, spriteName: string)

  /** The class names of every sprite's images, sprite by sprite. */
  function AllClassNames(groups: seq<Group>, s: NameSettings): (r: Result<seq<seq<string>>>)
    ensures r.Ok? <==> forall i :: 0 <= i < |groups| ==> ClassNames(groups[i].images, groups[i].spriteName, s).Ok?
    ensures r.Ok? ==> |r.value| == |groups|
    ensures r.Ok? ==> forall i :: 0 <= i < |groups| ==>
      r.value[i] == ClassNames(groups[i].images, groups[i].spriteName, s).value
    ensures r.Err? ==> exists i :: 0 <= i < |groups| && ClassNames(groups[i].images, groups[i].spriteName, s) == Err(r.error)
  {
    MapResults(groups, (g: Group) => ClassNames(g.images, g.spriteName, s))
  }

  /** The reported images, sprite by sprite. */
  function AllDuplicates(groups: seq<Group>, lists: seq<seq<string>>, all: seq<string>): seq<Image>
    requires |lists| == |groups|
    requires forall i :: 0 <= i < |groups| ==> |lists[i]| == |groups[i].images|
    decreases |groups|
  {
    if |groups| == 0 then []
    else Duplicates(groups[0].images, lists[0], all) + AllDuplicates(groups[1..], lists[1..], all)
  }

  /** An image whose name repeats among all names is reported. */
  lemma {:induction false} AllDuplicatesHas(groups: seq<Group>, lists: seq<seq<string>>, all: seq<string>, g: int, i: int)
    requires |lists| == |groups|
    requires forall k :: 0 <= k < |groups| ==> |lists[k]| == |groups[k].images|
    requires 0 <= g < |groups| && 0 <= i < |groups[g].images| && Count(all, lists[g][i]) >= 2
    ensures groups[g].images[i] in AllDuplicates(groups, lists, all)
    decreases |groups|
  {
    if g == 0 {
      DuplicatesOne(groups[0].images, lists[0], all, i);
    } else {
      assert groups[1..][g - 1] == groups[g] && lists[1..][g - 1] == lists[g];
      AllDuplicatesHas(groups[1..], lists[1..], all, g - 1, i);
    }
  }

  /** `BaseManager.validate`: the class names of all sprites together must be
      pairwise different. With no sprite at all `reduce` has nothing to
      start from (a TypeError). */
  function ValidateAll(groups: seq<Group>, s: NameSettings): (r: Result<bool>)
    ensures r.Ok? ==> r.value
    ensures groups == [] ==> r == Err(TypeError)
    ensures r.Ok? <==> |groups| > 0 && AllClassNames(groups, s).Ok? && Distinct(Concat(AllClassNames(groups, s).value))
    ensures AllClassNames(groups, s).Err? ==> r == Err(AllClassNames(groups, s).error)
    ensures |groups| > 0 && AllClassNames(groups, s).Ok? && r.Err? ==> r.error.MultipleImagesWithSameName?
  {
    var lists :- AllClassNames(groups, s);
    if |lists| == 0 then Err(TypeError)
    else
      var names := Concat(lists);
      DistinctIffCardinality(names);
      if |names| != |Elements(names)| then
        Err(MultipleImagesWithSameName(Paths(AllDuplicates(groups, lists, names))))
      else Ok(true)
  }

  /** The error of `BaseManager.validate` reports the path of every image,
      of any sprite, whose class name repeats across sprites. */
  lemma ValidateAllReports(groups: seq<Group>, s: NameSettings)
    requires AllClassNames(groups, s).Ok? && ValidateAll(groups, s).Err? && |groups| > 0
    ensures var lists := AllClassNames(groups, s).value;
      forall g, i :: 0 <= g < |groups| && 0 <= i < |groups[g].images| && Count(Concat(lists), lists[g][i]) >= 2 ==>
        groups[g].images[i].path in ValidateAll(groups, s).error.paths
  {
    var lists := AllClassNames(groups, s).value;
    var names := Concat(lists);
    DistinctIffCardinality(names);
    var dup := AllDuplicates(groups, lists, names);
    assert ValidateAll(groups, s).error.paths == Paths(dup);
    forall g, i | 0 <= g < |groups| && 0 <= i < |groups[g].images| && Count(names, lists[g][i]) >= 2
      ensures groups[g].images[i].path in Paths(dup)
    {
      AllDuplicatesHas(groups, lists, names, g, i);
      PathOfMember(dup, groups[g].images[i]);
    }
  }

  /** A name list inside a concatenation of pairwise different names has
      pairwise different names. */
  lemma {:induction false} ConcatDistinctPart(xss: seq<seq<string>>, k: int)
    requires 0 <= k < |xss| && Distinct(Concat(xss))
    ensures Distinct(xss[k])
    decreases |xss|
  {
    var c := Concat(xss);
    assert c == xss[0] + Concat(xss[1..]);
    if k == 0 {
      forall i, j | 0 <= i < j < |xss[0]| ensures xss[0][i] != xss[0][j] {
        assert c[i] == xss[0][i] && c[j] == xss[0][j];
      }
    } else {
      var rest := Concat(xss[1..]);
      forall i, j | 0 <= i < j < |rest| ensures rest[i] != rest[j] {
        assert c[|xss[0]| + i] == rest[i] && c[|xss[0]| + j] == rest[j];
      }
      ConcatDistinctPart(xss[1..], k - 1);
    }
  }

  /** The manager's check is the stronger one: when it passes, every sprite's
      own check passes too. */
  lemma ValidateAllImpliesEach(groups: seq<Group>, s: NameSettings, k: int)
    requires 0 <= k < |groups| && ValidateAll(groups, s).Ok?
    ensures ValidateNames(groups[k].images, groups[k].spriteName, s) == Ok(true)
  {
    ConcatDistinctPart(AllClassNames(groups, s).value, k);
  }
}
