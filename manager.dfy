/** The sprites of one run (glue/core.py, `BaseManager`). */
module Managers {
  import opened Options
  import opened Values
  import opened Errors
  import opened Config
  import opened Images
  import opened Validation
  import opened Sprites

  class BaseManager {
    const path: string
    const config: ConfigManager
    var sprites: seq<Sprite>

    /** Every sprite was made by this manager. */
    ghost predicate Valid()
      reads this
    {
      forall i :: 0 <= i < |sprites| ==> sprites[i].managerConfig == config
    }

    constructor (path: string, config: ConfigManager)
      ensures this.path == path && this.config == config && sprites == []
      ensures Valid()
    {
      this.path := path;
      this.config := config;
      sprites := [];
    }

    /** `process_sprite`: a new sprite for the directory `path` is appended,
        unless making it fails. `options` are the directory's `sprite.conf`
        options and `located` the images found in it. */
    method ProcessSprite(path: string, name: string, options: Option<map<string, string>>, located: seq<Image>)
      returns (r: Result<()>)
      requires Valid()
      modifies this
      ensures Valid()
      ensures SpriteRatiosOf(config, options).Err? ==>
        r == Err(SpriteRatiosOf(config, options).error) && sprites == old(sprites)
      ensures SpriteRatiosOf(config, options).Ok? && located == [] ==>
        r == Err(SourceImagesNotFound(path)) && sprites == old(sprites)
      ensures SpriteRatiosOf(config, options).Ok? && located != [] ==>
        && r == Ok(())
        && |sprites| == |old(sprites)| + 1 && sprites[..|old(sprites)|] == old(sprites)
        && var s := sprites[|old(sprites)|];
           fresh(s) && s.Valid() && s.name == name && s.path == path && s.images == located && !s.processed
           && s.ratios == SpriteRatiosOf(config, options).value
    {
      var created := Sprite.Create(name, path, config, options, located);
      if created.Err? {
        return Err(created.error);
      }
      sprites := sprites + [created.value];
      r := Ok(());
    }

    /** Each sprite's images with the sprite's name. */
    function Groups(): (g: seq<Group>)
      reads this, sprites
      ensures |g| == |sprites|
      ensures forall i :: 0 <= i < |sprites| ==> g[i] == Group(sprites[i].images, sprites[i].name)
    {
      seq(|sprites|, i reads this, sprites requires 0 <= i < |sprites| => Group(sprites[i].images, sprites[i].name))
    }

    /** `validate`: the class names of all sprites together. */
    function Validate(): Result<bool>
      reads this, sprites
    {
      ValidateAll(Groups(), NameSettingsOf(config))
    }

    /** When the check across sprites passes, each sprite's own check passes. */
    lemma ValidateCoversSprites(k: int)
      requires Valid() && 0 <= k < |sprites| && Validate().Ok?
      ensures sprites[k].Validate() == Ok(true)
    {
      ValidateAllImpliesEach(Groups(), NameSettingsOf(config), k);
    }

    /** The outcome of the checks from the `k`th sprite on: the error of the
        first sprite whose own check fails, else the check across sprites. */
    function CheckedFrom(k: nat): Result<bool>
      reads this, sprites
      decreases |sprites| - k
    {
      if k >= |sprites| then Validate()
      else if sprites[k].Validate().Err? then Err(sprites[k].Validate().error)
      else CheckedFrom(k + 1)
    }

    /** When no sprite fails its own check, the outcome is the check across
        sprites; and that check passing means no sprite fails its own. */
    lemma {:induction false} CheckedFromAllPass(k: nat)
      requires Valid() && k <= |sprites|
      ensures Validate().Ok? ==> CheckedFrom(k) == Validate()
      decreases |sprites| - k
    {
      if k < |sprites| && Validate().Ok? {
        ValidateCoversSprites(k);
        assert CheckedFrom(k) == CheckedFrom(k + 1);
        CheckedFromAllPass(k + 1);
      }
    }

    /** The checks `save` makes before writing anything: each sprite's
        `validate` in turn, stopping at the first that fails, then the check
        across sprites. */
    method CheckNames() returns (r: Result<bool>)
      requires Valid()
      ensures r == CheckedFrom(0)
      ensures Validate().Ok? ==> r == Ok(true)
    {
      CheckedFromAllPass(0);
      var i := 0;
      while i < |sprites|
        invariant 0 <= i <= |sprites|
        invariant CheckedFrom(i) == CheckedFrom(0)
      {
        var checked := sprites[i].Validate();
        if checked.Err? {
          return Err(checked.error);
        }
        i := i + 1;
      }
      r := Validate();
    }
  }
}
