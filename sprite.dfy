/** A sprite: one directory of images combined into one image file per ratio
    (glue/core.py, `Sprite`). */
module Sprites {
  import opened Text
  import opened Options
  import opened Values
  import opened Errors
  import opened Config
  import opened Names
  import opened Ordering
  import opened Ratios
  import opened Images
  import opened Validation

  /** `__version__`. */
  const Version: string := "0.3.1"

  /** The sprite image files already on disk, by file name, each with the
      text chunks (`info`) of its PNG header. */
  type Artifacts = map<string, map<string, string>>

  /** The manager's settings that class names are computed from. */
  function NameSettingsOf(c: ConfigManager): NameSettings {
    NameSettings(c.Find("ignore_filename_paddings"), c.Find("separator"), c.Find("sprite_namespace"), c.Find("namespace"))
  }

  /** A setting as a sprite whose `sprite.conf` has the options `options` sees
      it under the manager's configuration. */
  function SpriteSetting(manager: ConfigManager, options: Option<map<string, string>>, name: string): Value {
    FindIn([manager.priority] + ([FileConfig(options)] + manager.sources), manager.defaults, name)
  }

  /** The ratios such a sprite is built for. */
  function SpriteRatiosOf(manager: ConfigManager, options: Option<map<string, string>>): Result<seq<int>> {
    SpriteRatios(SpriteSetting(manager, options, "ratios"), SpriteSetting(manager, options, "retina"))
  }

  /** An image file generated by this version for the sprite with hash `hash`. */
  predicate UpToDate(info: map<string, string>, hash: string) {
    && "Software" in info && info["Software"] == "glue-" + Version
    && "Comment" in info && info["Comment"] == hash
  }

  class Sprite {
    const name: string
    const path: string
    /** The manager's configuration (`manager.config`). */
    const managerConfig: ConfigManager
    /** The manager's configuration extended with this sprite's `sprite.conf`. */
    const config: ConfigManager
    const ratios: seq<int>
    var images: seq<Image>
    /** `_processed`. */
    var processed: bool
    /** The `(x, y)` of each image, as the packer placed them. */
    var positions: seq<(int, int)>

    predicate RatiosValid() {
      Increasing(ratios) && 1 in ratios
    }

    /** What the images' absolute sizes depend on. */
    function Settings(): SizeSettings
      requires RatiosValid()
    {
      SizeSettings(config.Find("margin"), Truthy(managerConfig.Find("ignore_filename_paddings")),
                   config.Find("padding"), MaxRatio(ratios))
    }

    /** At least one image, the ratios of `__init__`, a sound memo, and once
        processed a place for each image and a size for each. */
    ghost predicate Valid()
      reads this, config
    {
      && RatiosValid()
      && |images| > 0
      && config.Valid()
      && (processed ==> |positions| == |images| && Sizes(images, Settings()).Ok?)
    }

    constructor (name: string, path: string, managerConfig: ConfigManager, config: ConfigManager,
                 ratios: seq<int>, images: seq<Image>)
      requires Increasing(ratios) && 1 in ratios && |images| > 0 && config.Valid()
      ensures this.name == name && this.path == path
      ensures this.managerConfig == managerConfig && this.config == config
      ensures this.ratios == ratios && this.images == images
      ensures !processed && positions == []
      ensures Valid()
    {
      this.name := name;
      this.path := path;
      this.managerConfig := managerConfig;
      this.config := config;
      this.ratios := ratios;
      this.images := images;
      processed := false;
      positions := [];
    }

    /** `Sprite.__init__`: the configuration is the manager's extended with the
        sprite's own file options, the ratios are read from it (a malformed
        setting fails first), and a directory without images is a
        SourceImagesNotFound error. `located` are the images found there. */
    static method Create(name: string, path: string, manager: ConfigManager,
                         options: Option<map<string, string>>, located: seq<Image>)
      returns (r: Result<Sprite>)
      ensures SpriteRatiosOf(manager, options).Err? ==> r == Err(SpriteRatiosOf(manager, options).error)
      ensures SpriteRatiosOf(manager, options).Ok? && located == [] ==> r == Err(SourceImagesNotFound(path))
      ensures SpriteRatiosOf(manager, options).Ok? && located != [] ==>
        && r.Ok? && fresh(r.value) && fresh(r.value.config) && r.value.Valid()
        && r.value.name == name && r.value.path == path && r.value.managerConfig == manager
        && r.value.ratios == SpriteRatiosOf(manager, options).value
        && r.value.images == located && !r.value.processed
        && r.value.config.sources == [FileConfig(options)] + manager.sources
        && r.value.config.priority == manager.priority && r.value.config.defaults == manager.defaults
    {
      var config := manager.Extend(FileConfig(options));
      assert config.Chain() == [manager.priority] + ([FileConfig(options)] + manager.sources);
      var ratiosSetting := config.Lookup("ratios");
      var retina := config.Lookup("retina");
      var rs := SpriteRatios(ratiosSetting, retina);
      if rs.Err? {
        return Err(rs.error);
      }
      if located == [] {
        return Err(SourceImagesNotFound(path));
      }
      var sprite := new Sprite(name, path, manager, config, rs.value, located);
      r := Ok(sprite);
    }

    /** `process`: nothing happens once processed. Otherwise the images are
        arranged (the algorithm checked, then sorted) and `pack`, the unseen
        packing algorithm, places them from their absolute sizes. On an error
        nothing changes. */
    method Process(pack: seq<(int, int)> -> seq<(int, int)>) returns (r: Result<()>)
      requires Valid()
      requires forall sizes :: |pack(sizes)| == |sizes|
      modifies this
      ensures Valid()
      ensures old(processed) ==>
        r == Ok(()) && processed && images == old(images) && positions == old(positions)
      ensures !old(processed) ==>
        var arranged := Arrange(old(images), config.Find("algorithm"), config.Find("ordering"), Settings());
        if arranged.Ok? then
          r == Ok(()) && processed && images == arranged.value
          && positions == pack(Sizes(arranged.value, Settings()).value)
        else
          r == Err(arranged.error) && !processed && images == old(images) && positions == old(positions)
    {
      if processed {
        return Ok(());
      }
      var arranged := Arrange(images, config.Find("algorithm"), config.Find("ordering"), Settings());
      if arranged.Err? {
        return Err(arranged.error);
      }
      images := arranged.value;
      positions := pack(Sizes(images, Settings()).value);
      processed := true;
      r := Ok(());
    }

    /** `canvas_size`: the running maxima of `x + absolute_width` and
        `y + absolute_height` over the placed images, from 0. */
    method CanvasSize() returns (width: int, height: int)
      requires Valid() && processed
      ensures (width, height) == Canvas(Boxes(positions, Sizes(images, Settings()).value))
    {
      width, height := CanvasOf(positions, Sizes(images, Settings()).value);
    }

    /** The images of a processed sprite all lie on its canvas. */
    lemma CanvasHoldsImages(i: int)
      requires Valid() && processed && 0 <= i < |images|
      ensures
        var size := AbsoluteSize(images[i], Settings()).value;
        var canvas := Canvas(Boxes(positions, Sizes(images, Settings()).value));
        positions[i].0 + size.0 <= canvas.0 && positions[i].1 + size.1 <= canvas.1
    {
      var boxes := Boxes(positions, Sizes(images, Settings()).value);
      CanvasContains(boxes);
      assert boxes[i] == Box(positions[i].0, positions[i].1,
                             AbsoluteSize(images[i], Settings()).value.0, AbsoluteSize(images[i], Settings()).value.1);
    }

    /** The list `hash` joins, built by appending: path and data of each image
        by path, then each setting of `keys` (the names of `DEFAULT_SETTINGS`
        in the order Python's dict lists them) but `html`, `quiet` and `force`,
        read through attribute access. */
    method HashList(keys: seq<string>) returns (parts: seq<string>)
      requires config.Valid() && SettingNames(keys)
      modifies config`cache
      ensures config.Valid()
      ensures parts == HashInput(images, keys, config)
    {
      var sorted := ByPath(images);
      var imageParts := AppendImages([], sorted);
      assert imageParts == ImageHashParts(sorted);
      parts := AppendSettings(imageParts, keys, config);
    }

    /** `filename`: with `cachebuster_filename`, the name carries part of the hash. */
    function Filename(hash: string): string {
      SpriteFilename(name, hash, config.Find("cachebuster_filename"))
    }

    /** `already_created` in `save_image`: not forced, and the ratio's image
        file exists, was written by this version and carries this hash. */
    predicate AlreadyCreated(ratio: int, existing: Artifacts, hash: string) {
      var file := ImageFilename(Filename(hash), ratio);
      !Truthy(config.Find("force")) && file in existing && UpToDate(existing[file], hash)
    }

    /** Whether the image of a ratio must be (re)generated. */
    function Regenerate(existing: Artifacts, hash: string): int -> bool {
      (ratio: int) => !AlreadyCreated(ratio, existing, hash)
    }

    /** `save_image`'s choice of ratios to generate: none with `no_img`,
        otherwise every ratio whose image is not already created. */
    method RatiosToProcess(existing: Artifacts, hash: string) returns (todo: seq<int>)
      ensures Truthy(config.Find("no_img")) ==> todo == []
      ensures !Truthy(config.Find("no_img")) ==> todo == Keep(ratios, Regenerate(existing, hash))
    {
      if Truthy(config.Find("no_img")) {
        return [];
      }
      todo := Select(ratios, Regenerate(existing, hash));
    }

    /** `force` regenerates every ratio. */
    lemma ForceRegeneratesAll(existing: Artifacts, hash: string)
      requires Truthy(config.Find("force"))
      ensures Keep(ratios, Regenerate(existing, hash)) == ratios
    {
      KeepAll(ratios, Regenerate(existing, hash));
    }

    /** When every image is up to date, nothing is regenerated. */
    lemma NothingPendingWhenUpToDate(existing: Artifacts, hash: string)
      requires !Truthy(config.Find("force"))
      requires forall i :: 0 <= i < |ratios| ==>
        var file := ImageFilename(Filename(hash), ratios[i]);
        file in existing && UpToDate(existing[file], hash)
      ensures Keep(ratios, Regenerate(existing, hash)) == []
    {
      KeepNone(ratios, Regenerate(existing, hash));
    }

    /** An image carrying another hash is regenerated. */
    lemma StaleHashRegenerates(existing: Artifacts, hash: string, ratio: int)
      requires ratio in ratios
      requires ImageFilename(Filename(hash), ratio) in existing
      requires var info := existing[ImageFilename(Filename(hash), ratio)]; "Comment" in info && info["Comment"] != hash
      ensures ratio in Keep(ratios, Regenerate(existing, hash))
    {
    }

    /** `validate`: the class names of this sprite's images are pairwise different. */
    function Validate(): Result<bool>
      reads this
    {
      ValidateNames(images, name, NameSettingsOf(managerConfig))
    }
  }
}
