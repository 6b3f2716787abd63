/** A source image of a sprite and what the sprite computes from it
    (glue/core.py, `Image`): its name parts, its absolute size, the order
    `process` sorts the images in, the canvas they span and the input of the
    sprite's hash. */
module Images {
  import opened Text
  import opened Options
  import opened Values
  import opened Errors
  import opened Config
  import opened Padding
  import opened Names
  import opened Sorting
  import opened Ordering

  /** An image once read: `width` and `height` are the size of the decoded
      (and, with `crop`, cropped) pixels; `data` is the file's bytes. */
  datatype Image = Image(
    name: string,
    filename: string,
    format: string,
    pseudo: string,
    path: string,
    data: string,
    width: nat,
    height: nat)

  /** `pick` is an admissible choice of pseudo-class for the file `name`. */
  predicate IsPick(name: string, pick: string) {
    match SplitExtension(name)
    case Ok(parts) => PseudoCandidates(parts.0) == {} || pick in PseudoCandidates(parts.0)
    case Err(_) => true
  }

  /** `Image.__init__`: the name is split at its last dot into file name and
      format (a name without a dot is a ValueError), and the pseudo-class is
      one of the pseudo-class blocks of the file name, `pick`. */
  function NewImage(name: string, path: string, data: string, width: nat, height: nat, pick: string): (r: Result<Image>)
    requires IsPick(name, pick)
    ensures r.Err? <==> '.' !in name
    ensures r.Err? ==> r.error == ValueError
    ensures r.Ok? ==>
      && r.value.name == name
      && r.value.filename + "." + r.value.format == name && '.' !in r.value.format
      && IsPseudoFor(r.value.filename, r.value.pseudo)
      && r.value.path == path && r.value.data == data
      && r.value.width == width && r.value.height == height
  {
    var parts :- SplitExtension(name);
    var pseudo := if PseudoCandidates(parts.0) == {} then "" else ":" + pick;
    assert pseudo != "" ==> pseudo[1..] == pick;
    Ok(Image(name, parts.0, parts.1, pseudo, path, data, width, height))
  }

  // ---------------------------------------------------------------------
  // absolute size

  /** What the absolute size depends on besides the image: the sprite's
      `margin` and `padding` settings, the manager's `ignore_filename_paddings`
      and the sprite's largest ratio. */
  datatype SizeSettings = SizeSettings(
    margin: Value,
    ignoreFilenamePaddings: bool,
    padding: Value,
    maxRatio: int)

  /** `(absolute_width, absolute_height)`: the size plus margin and padding on
      both sides, scaled by the largest ratio. The margin is converted first,
      then the padding is computed. */
  function AbsoluteSize(img: Image, s: SizeSettings): (r: Result<(int, int)>)
    ensures IntOf(s.margin).Err? ==> r == Err(IntOf(s.margin).error)
    ensures IntOf(s.margin).Ok? ==>
      (r.Ok? <==> ImagePadding(img.filename, s.ignoreFilenamePaddings, s.padding).Ok?)
    ensures IntOf(s.margin).Ok? && r.Err? ==>
      UsesSetting(img.filename, s.ignoreFilenamePaddings) && r == Err(SettingPadding(s.padding).error)
  {
    var margin :- IntOf(s.margin);
    var padding :- ImagePadding(img.filename, s.ignoreFilenamePaddings, s.padding);
    Ok((Scaled(img.width, HorizontalPadding(padding), margin, s.maxRatio),
        Scaled(img.height, VerticalPadding(padding), margin, s.maxRatio)))
  }

  /** One side: `size + (padding + 2 * margin) * max_ratio` (`round_up` of a
      whole number is the number). */
  function Scaled(size: int, padding: int, margin: int, ratio: int): (r: int)
    ensures padding >= 0 && margin >= 0 && ratio >= 0 ==> r >= size
  {
    var r := size + (padding + 2 * margin) * ratio;
    if padding >= 0 && margin >= 0 && ratio >= 0 then
      MultiplyNonNegative(padding + 2 * margin, ratio);
      r
    else r
  }

  /** Whatever image fails, it fails the same way: when two images have no
      size, the error is the same. */
  lemma SizeErrorsAgree(a: Image, b: Image, s: SizeSettings)
    requires AbsoluteSize(a, s).Err? && AbsoluteSize(b, s).Err?
    ensures AbsoluteSize(a, s).error == AbsoluteSize(b, s).error
  {
  }

  /** With a non-negative margin and non-negative padding the absolute size
      covers the image itself. */
  lemma SizeCovers(img: Image, s: SizeSettings)
    requires AbsoluteSize(img, s).Ok? && s.maxRatio >= 1
    requires IntOf(s.margin).Ok? && IntOf(s.margin).value >= 0
    requires SettingPadding(s.padding).Ok? ==> forall i :: 0 <= i < 4 ==> SettingPadding(s.padding).value[i] >= 0
    ensures AbsoluteSize(img, s).value.0 >= img.width
    ensures AbsoluteSize(img, s).value.1 >= img.height
  {
    var margin := IntOf(s.margin).value;
    var p := ImagePadding(img.filename, s.ignoreFilenamePaddings, s.padding).value;
    if !UsesSetting(img.filename, s.ignoreFilenamePaddings) {
      FilenamePaddingParses(img.filename);
    }
    assert AbsoluteSize(img, s).value ==
      (Scaled(img.width, HorizontalPadding(p), margin, s.maxRatio), Scaled(img.height, VerticalPadding(p), margin, s.maxRatio));
  }

  lemma MultiplyNonNegative(a: int, b: int)
    requires a >= 0 && b >= 0
    ensures a * b >= 0
  {
  }

  /** The absolute sizes of a list of images, or the error of the first one
      that has none. */
  function Sizes(imgs: seq<Image>, s: SizeSettings): (r: Result<seq<(int, int)>>)
    ensures r.Ok? <==> forall i :: 0 <= i < |imgs| ==> AbsoluteSize(imgs[i], s).Ok?
    ensures r.Ok? ==> |r.value| == |imgs|
    ensures r.Ok? ==> forall i :: 0 <= i < |imgs| ==> r.value[i] == AbsoluteSize(imgs[i], s).value
    ensures r.Err? ==> exists i :: 0 <= i < |imgs| && AbsoluteSize(imgs[i], s) == Err(r.error)
  {
    MapResults(imgs, (img: Image) => AbsoluteSize(img, s))
  }

  /** `[f(x) for x in xs]` where `f` may raise: the first error stops it. */
  function MapResults<X, Y>(xs: seq<X>, f: X -> Result<Y>): (r: Result<seq<Y>>)
    ensures r.Ok? <==> forall i :: 0 <= i < |xs| ==> f(xs[i]).Ok?
    ensures r.Ok? ==> |r.value| == |xs|
    ensures r.Ok? ==> forall i :: 0 <= i < |xs| ==> r.value[i] == f(xs[i]).value
    ensures r.Err? ==> exists i :: 0 <= i < |xs| && f(xs[i]) == Err(r.error)
    decreases |xs|
  {
    if |xs| == 0 then Ok([])
    else
      var n := |xs| - 1;
      var init := MapResults(xs[..n], f);
      if init.Err? then
        var i :| 0 <= i < n && f(xs[..n][i]) == Err(init.error);
        assert xs[..n][i] == xs[i];
        Err(init.error)
      else
        var last := f(xs[n]);
        if last.Err? then Err(last.error)
        else
          assert forall i :: 0 <= i < n ==> xs[..n][i] == xs[i];
          Ok(init.value + [last.value])
  }

  /** The error of the list is the error of any image without a size. */
  lemma SizesError(imgs: seq<Image>, s: SizeSettings, i: int)
    requires 0 <= i < |imgs| && AbsoluteSize(imgs[i], s).Err?
    ensures Sizes(imgs, s) == Err(AbsoluteSize(imgs[i], s).error)
  {
    var j :| 0 <= j < |imgs| && AbsoluteSize(imgs[j], s) == Err(Sizes(imgs, s).error);
    SizeErrorsAgree(imgs[i], imgs[j], s);
  }

  /** Images that have a size keep it when reordered. */
  lemma SizesOfPermutation(xs: seq<Image>, ys: seq<Image>, s: SizeSettings)
    requires multiset(xs) == multiset(ys) && Sizes(xs, s).Ok?
    ensures Sizes(ys, s).Ok?
  {
    forall i | 0 <= i < |ys| ensures AbsoluteSize(ys[i], s).Ok? {
      assert ys[i] in multiset(xs);
      var j :| 0 <= j < |xs| && xs[j] == ys[i];
    }
  }

  // ---------------------------------------------------------------------
  // process

  /** The names of `ALGORITHMS`. */
  const Algorithms: seq<string> :=
    ["square", "vertical", "vertical-right", "horizontal", "horizontal-bottom", "diagonal"]

  predicate KnownAlgorithm(algorithm: Value) {
    algorithm.Str? && algorithm.s in Algorithms
  }

  /** The size `__lt__` compares (for images that have one). */
  function SizeOf(s: SizeSettings): Image -> (int, int) {
    (img: Image) => match AbsoluteSize(img, s) case Ok(v) => v case Err(_) => (0, 0)
  }

  /** The measures of `xs` ascend, or descend if `descending`. */
  predicate InOrder(xs: seq<Image>, s: SizeSettings, k: Key, descending: bool) {
    forall i, j :: 0 <= i < j < |xs| ==>
      if descending then MeasureOf(k, SizeOf(s)(xs[j])) <= MeasureOf(k, SizeOf(s)(xs[i]))
      else MeasureOf(k, SizeOf(s)(xs[i])) <= MeasureOf(k, SizeOf(s)(xs[j]))
  }

  /** The images as `process` leaves them. The algorithm must be known (else
      InvalidImageAlgorithm, before anything else); `ordering[0]` decides the
      direction; with two images or more the sort compares them, which
      checks the ordering name and needs their sizes; the packer then reads
      every size. */
  function Arrange(imgs: seq<Image>, algorithm: Value, ordering: Value, s: SizeSettings): (r: Result<seq<Image>>)
    ensures !KnownAlgorithm(algorithm) ==> r == Err(InvalidImageAlgorithm(algorithm))
    ensures KnownAlgorithm(algorithm) && Reverse(ordering).Err? ==> r == Err(Reverse(ordering).error)
    ensures KnownAlgorithm(algorithm) && Reverse(ordering).Ok? && |imgs| >= 2 && ParseOrdering(ordering.s).Err? ==>
      r == Err(ParseOrdering(ordering.s).error)
    ensures KnownAlgorithm(algorithm) && Reverse(ordering).Ok? && (|imgs| < 2 || ParseOrdering(ordering.s).Ok?) ==>
      (r.Ok? <==> Sizes(imgs, s).Ok?) && (r.Err? ==> r == Err(Sizes(imgs, s).error))
    ensures r.Ok? ==> multiset(r.value) == multiset(imgs) && Sizes(r.value, s).Ok?
    ensures r.Ok? && |imgs| < 2 ==> r.value == imgs
    ensures r.Ok? && |imgs| >= 2 ==>
      ParseOrdering(ordering.s).Ok? && InOrder(r.value, s, ParseOrdering(ordering.s).value, Reverse(ordering).value)
  {
    if !KnownAlgorithm(algorithm) then Err(InvalidImageAlgorithm(algorithm))
    else
      var reverse :- Reverse(ordering);
      if |imgs| < 2 then
        var sizes :- Sizes(imgs, s);
        Ok(imgs)
      else
        var k :- ParseOrdering(ordering.s);
        var sizes :- Sizes(imgs, s);
        var sorted := SortByMeasure(imgs, SizeOf(s), k, reverse);
        SizesOfPermutation(imgs, sorted, s);
        Ok(sorted)
  }

  // ---------------------------------------------------------------------
  // canvas

  /** The place and absolute size of one image on the canvas. */
  datatype Box = Box(x: int, y: int, w: int, h: int)

  /** The boxes of images placed at `positions` with the given sizes. */
  function Boxes(positions: seq<(int, int)>, sizes: seq<(int, int)>): (r: seq<Box>)
    requires |positions| == |sizes|
    ensures |r| == |sizes|
  {
    seq(|sizes|, i requires 0 <= i < |sizes| => Box(positions[i].0, positions[i].1, sizes[i].0, sizes[i].1))
  }

  /** `canvas_size`'s two running maxima of the right and bottom edges,
      starting from 0. */
  function Canvas(boxes: seq<Box>): (r: (int, int))
    ensures r.0 >= 0 && r.1 >= 0
    decreases |boxes|
  {
    if |boxes| == 0 then (0, 0)
    else
      var c := Canvas(boxes[..|boxes| - 1]);
      var b := boxes[|boxes| - 1];
      (if c.0 < b.x + b.w then b.x + b.w else c.0, if c.1 < b.y + b.h then b.y + b.h else c.1)
  }

  /** The loop of `canvas_size` over images placed at `positions` with the
      given absolute sizes. */
  method CanvasOf(positions: seq<(int, int)>, sizes: seq<(int, int)>) returns (width: int, height: int)
    requires |positions| == |sizes|
    ensures (width, height) == Canvas(Boxes(positions, sizes))
  {
    ghost var boxes := Boxes(positions, sizes);
    width, height := 0, 0;
    var i := 0;
    while i < |sizes|
      invariant 0 <= i <= |sizes|
      invariant (width, height) == Canvas(boxes[..i])
    {
      var x := positions[i].0 + sizes[i].0;
      var y := positions[i].1 + sizes[i].1;
      assert boxes[..i + 1][..i] == boxes[..i];
      if width < x {
        width := x;
      }
      if height < y {
        height := y;
      }
      i := i + 1;
    }
    assert boxes[..i] == boxes;
  }

  /** Every image lies within the canvas. */
  lemma {:induction false} CanvasContains(boxes: seq<Box>)
    ensures forall i :: 0 <= i < |boxes| ==>
      boxes[i].x + boxes[i].w <= Canvas(boxes).0 && boxes[i].y + boxes[i].h <= Canvas(boxes).1
    decreases |boxes|
  {
    if |boxes| > 0 {
      var n := |boxes| - 1;
      CanvasContains(boxes[..n]);
      assert forall i :: 0 <= i < n ==> boxes[..n][i] == boxes[i];
    }
  }

  /** The canvas is no larger than it must be: each side is 0 or the edge of
      some image. */
  lemma {:induction false} CanvasTight(boxes: seq<Box>)
    ensures Canvas(boxes).0 == 0 || exists i :: 0 <= i < |boxes| && Canvas(boxes).0 == boxes[i].x + boxes[i].w
    ensures Canvas(boxes).1 == 0 || exists i :: 0 <= i < |boxes| && Canvas(boxes).1 == boxes[i].y + boxes[i].h
    decreases |boxes|
  {
    if |boxes| > 0 {
      var n := |boxes| - 1;
      CanvasTight(boxes[..n]);
      assert forall i :: 0 <= i < n ==> boxes[..n][i] == boxes[i];
    }
  }

  /** Hence the canvas is the smallest non-negative size containing every image. */
  lemma CanvasLeast(boxes: seq<Box>, w: int, h: int)
    requires w >= 0 && h >= 0
    requires forall i :: 0 <= i < |boxes| ==> boxes[i].x + boxes[i].w <= w && boxes[i].y + boxes[i].h <= h
    ensures Canvas(boxes).0 <= w && Canvas(boxes).1 <= h
  {
    CanvasTight(boxes);
  }

  // ---------------------------------------------------------------------
  // hash input

  /** `sorted(images, key=lambda i: i.path)`'s order. */
  function PathOrder(): (Image, Image) -> bool {
    (a: Image, b: Image) => LexLeq(a.path, b.path)
  }

  lemma PathOrderIsTotalPreorder()
    ensures TotalPreorder(PathOrder())
  {
    forall a: Image, b: Image ensures PathOrder()(a, b) || PathOrder()(b, a) {
      LexLeqTotal(a.path, b.path);
    }
    forall a: Image, b: Image, c: Image | PathOrder()(a, b) && PathOrder()(b, c)
      ensures PathOrder()(a, c)
    {
      LexLeqTransitive(a.path, b.path, c.path);
    }
  }

  /** The images by path. */
  function ByPath(imgs: seq<Image>): (r: seq<Image>)
    ensures multiset(r) == multiset(imgs)
    ensures forall i, j :: 0 <= i < j < |r| ==> LexLeq(r[i].path, r[j].path)
  {
    PathOrderIsTotalPreorder();
    var r := Sort(imgs, PathOrder());
    assert forall i, j :: 0 <= i < j < |r| ==> PathOrder()(r[i], r[j]);
    r
  }

  /** Path and data of each image, in order. */
  function ImageHashParts(imgs: seq<Image>): (r: seq<string>)
    ensures |r| == 2 * |imgs|
    ensures forall i :: 0 <= i < |imgs| ==> r[2 * i] == imgs[i].path && r[2 * i + 1] == imgs[i].data
    decreases |imgs|
  {
    if |imgs| == 0 then []
    else
      var n := |imgs| - 1;
      assert forall i :: 0 <= i < n ==> imgs[..n][i] == imgs[i];
      ImageHashParts(imgs[..n]) + [imgs[n].path, imgs[n].data]
  }

  /** The settings the hash leaves out, as they do not change the result. */
  predicate Ignored(key: string) {
    key == "html" || key == "quiet" || key == "force"
  }

  /** Each setting name but the ignored ones, followed by its value as text. */
  function SettingHashParts(keys: seq<string>, c: ConfigManager): seq<string>
    decreases |keys|
  {
    if |keys| == 0 then []
    else
      var n := |keys| - 1;
      var init := SettingHashParts(keys[..n], c);
      if Ignored(keys[n]) then init else init + [keys[n], PyStr(c.Find(keys[n]))]
  }

  /** The setting names that are not ignored, in order. */
  function KeptKeys(keys: seq<string>): (r: seq<string>)
    ensures forall i :: 0 <= i < |r| ==> !Ignored(r[i]) && r[i] in keys
    ensures forall k :: k in keys && !Ignored(k) ==> k in r
    ensures Distinct(keys) ==> Distinct(r)
    decreases |keys|
  {
    if |keys| == 0 then []
    else
      var n := |keys| - 1;
      var init := KeptKeys(keys[..n]);
      assert forall k :: k in keys <==> k in keys[..n] || k == keys[n];
      assert Distinct(keys) ==> Distinct(keys[..n]) && keys[n] !in keys[..n];
      if Ignored(keys[n]) then init else init + [keys[n]]
  }

  /** `keys` is an order of the names of `DEFAULT_SETTINGS`: each name once. */
  predicate SettingNames(keys: seq<string>) {
    && (forall k :: k in keys ==> k in DefaultSettings)
    && (forall k :: k in DefaultSettings ==> k in keys)
    && Distinct(keys)
  }

  /** Over the names of `DEFAULT_SETTINGS`, the hash reads every setting but
      `html`, `quiet` and `force`, each exactly once. */
  lemma KeptDefaultKeys(keys: seq<string>)
    requires SettingNames(keys)
    ensures forall k :: k in KeptKeys(keys) <==> k in DefaultSettings && !Ignored(k)
    ensures Distinct(KeptKeys(keys))
  {
    var kept := KeptKeys(keys);
    forall k | k in kept ensures k in DefaultSettings && !Ignored(k) {
      var i :| 0 <= i < |kept| && kept[i] == k;
    }
  }

  /** The three settings the hash leaves out are settings of `DEFAULT_SETTINGS`. */
  lemma IgnoredAreDefaults(key: string)
    requires Ignored(key)
    ensures key in DefaultSettings
  {
  }

  /** One more image at the end. */
  lemma ImageHashSnoc(imgs: seq<Image>, img: Image)
    ensures ImageHashParts(imgs + [img]) == ImageHashParts(imgs) + [img.path, img.data]
  {
    assert (imgs + [img])[..|imgs|] == imgs;
  }

  /** One more setting at the end. */
  lemma SettingHashSnoc(keys: seq<string>, key: string, c: ConfigManager)
    ensures SettingHashParts(keys + [key], c) ==
      if Ignored(key) then SettingHashParts(keys, c) else SettingHashParts(keys, c) + [key, PyStr(c.Find(key))]
  {
    assert (keys + [key])[..|keys|] == keys;
  }

  /** The settings part lists every kept setting, name then value, and no
      ignored one. */
  lemma {:induction false} SettingHashLayout(keys: seq<string>, c: ConfigManager)
    ensures var parts := SettingHashParts(keys, c);
      var kept := KeptKeys(keys);
      && |parts| == 2 * |kept|
      && forall i :: 0 <= i < |kept| ==> parts[2 * i] == kept[i] && parts[2 * i + 1] == PyStr(c.Find(kept[i]))
    decreases |keys|
  {
    if |keys| > 0 {
      SettingHashLayout(keys[..|keys| - 1], c);
    }
  }

  /** The flags left out cannot change the settings part. */
  lemma {:induction false} SettingHashIgnoresFlags(keys: seq<string>, c1: ConfigManager, c2: ConfigManager)
    requires forall i :: 0 <= i < |keys| && !Ignored(keys[i]) ==> c1.Find(keys[i]) == c2.Find(keys[i])
    ensures SettingHashParts(keys, c1) == SettingHashParts(keys, c2)
    decreases |keys|
  {
    if |keys| > 0 {
      var n := |keys| - 1;
      assert forall i :: 0 <= i < n ==> keys[..n][i] == keys[i];
      SettingHashIgnoresFlags(keys[..n], c1, c2);
    }
  }

  /** `hash_list.append` of path and data for each image in turn. */
  method AppendImages(init: seq<string>, imgs: seq<Image>) returns (parts: seq<string>)
    ensures parts == init + ImageHashParts(imgs)
  {
    parts := init;
    var i := 0;
    while i < |imgs|
      invariant 0 <= i <= |imgs|
      invariant parts == init + ImageHashParts(imgs[..i])
    {
      var done := imgs[..i];
      TakeSnoc(imgs, i);
      ImageHashSnoc(done, imgs[i]);
      var step := [imgs[i].path, imgs[i].data];
      AppendAssoc(init, ImageHashParts(done), step);
      parts := parts + step;
      i := i + 1;
    }
    assert imgs[..i] == imgs;
  }

  /** `hash_list.append` of name and value for each setting in turn but the
      ignored ones, the value read through attribute access (and so memoised). */
  method AppendSettings(init: seq<string>, keys: seq<string>, c: ConfigManager) returns (parts: seq<string>)
    requires c.Valid()
    modifies c`cache
    ensures c.Valid()
    ensures parts == init + SettingHashParts(keys, c)
  {
    parts := init;
    var j := 0;
    while j < |keys|
      invariant 0 <= j <= |keys|
      invariant c.Valid()
      invariant parts == init + SettingHashParts(keys[..j], c)
    {
      var key := keys[j];
      var done := keys[..j];
      TakeSnoc(keys, j);
      SettingHashSnoc(done, key, c);
      if !Ignored(key) {
        var value := c.Lookup(key);
        var step := [key, PyStr(value)];
        AppendAssoc(init, SettingHashParts(done, c), step);
        parts := parts + step;
      }
      j := j + 1;
    }
    assert keys[..j] == keys;
  }

  /** The list `hash` joins: the images by path, then the settings in the
      order `keys` of `DEFAULT_SETTINGS`. */
  function HashInput(imgs: seq<Image>, keys: seq<string>, c: ConfigManager): seq<string> {
    ImageHashParts(ByPath(imgs)) + SettingHashParts(keys, c)
  }

  /** `hash`: the first ten characters of the SHA-1 hex digest of the joined
      list, the settings taken over the names of `DEFAULT_SETTINGS`. */
  function Hash(imgs: seq<Image>, keys: seq<string>, c: ConfigManager, sha1: string -> string): (h: string)
    requires SettingNames(keys)
    ensures h <= sha1(Join(HashInput(imgs, keys, c), ""))
    ensures |h| == if |sha1(Join(HashInput(imgs, keys, c), ""))| < 10 then |sha1(Join(HashInput(imgs, keys, c), ""))| else 10
  {
    var digest := sha1(Join(HashInput(imgs, keys, c), ""));
    if |digest| < 10 then digest else digest[..10]
  }

  /** The order the images were found in does not matter, as long as no two
      different images share a path. */
  lemma HashOrderIndependent(xs: seq<Image>, ys: seq<Image>, keys: seq<string>, c: ConfigManager)
    requires multiset(xs) == multiset(ys)
    requires forall a, b :: a in xs && b in xs && a.path == b.path ==> a == b
    ensures HashInput(xs, keys, c) == HashInput(ys, keys, c)
  {
    var sx, sy := ByPath(xs), ByPath(ys);
    PathOrderIsTotalPreorder();
    assert SortedBy(sx, PathOrder()) && SortedBy(sy, PathOrder());
    forall a, b | a in sx && b in sx && PathOrder()(a, b) && PathOrder()(b, a) ensures a == b {
      assert a in multiset(xs) && b in multiset(xs);
      LexLeqAntisymmetric(a.path, b.path);
    }
    SortedUnique(sx, sy, PathOrder());
  }
}
