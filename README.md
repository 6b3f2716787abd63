# glue core, modelled in Dafny

glue combines the images of a directory into one sprite image and writes the
CSS that shows each image through a class name. This project models the
metadata and configuration logic of `glue/core.py`, and proves properties of
that model. It covers:

- per-image padding read from file names or from settings;
- pseudo-classes and CSS class names;
- the `__lt__` ordering and the sort in `Sprite.process`;
- absolute sizes, and the crop scan over the pixels;
- the ratios a sprite is built for, and the `@Nx` image file names;
- `canvas_size`;
- the input list of the sprite hash;
- the choice of ratios `save_image` regenerates;
- class-name collision checks, per sprite and across a manager;
- and the layered `ConfigManager` with its memo.

Files and modules:

| file | modules | models |
|---|---|---|
| `text.dfy` | `Options`, `Text` | Python 2 string helpers the core relies on (`split`, `join`, `strip`, `replace`, `lower`, `int()`, `'%i'`, string `<=`) |
| `values.dfy` | `Values`, `Errors` | Python values of settings (`None`, booleans, integers, strings), truthiness, `str()`, `int()`, and the exceptions raised, as a `Result` |
| `config.dfy` | `Config` | `DEFAULT_SETTINGS`, `get_file_config`'s `clean`, and `ConfigManager` (a class whose `cache` field is the `_cache` dictionary) |
| `padding.dfy` | `Padding` | `_padding_info`, `_generate_padding`, `padding`, `horizontal_padding`, `vertical_padding` |
| `names.dfy` | `Templates`, `Names` | `Image.__init__`'s file name and pseudo-class, and `class_name` (with the `%` formatting of `sprite_namespace`) |
| `ordering.dfy` | `Sorting`, `Ordering` | Python's `sorted`, `__lt__` and the direction `process` sorts in |
| `images.dfy` | `Images` | the `Image` record, absolute sizes, `process`'s arrangement, `canvas_size`, the hash input |
| `validation.dfy` | `Validation` | `Sprite.validate` and `BaseManager.validate` |
| `ratios.dfy` | `Ratios` | the ratio set of `Sprite.__init__`, `max_ratio`, `__get_reference`, `image_path`, `filename`, and list filtering |
| `sprite.dfy` | `Sprites` | the `Sprite` class: construction, `process`, `canvas_size`, `hash`, `save_image`'s ratio selection, `validate` |
| `manager.dfy` | `Managers` | the `BaseManager` class: `process_sprite`, `validate`, and the checks `save` runs before writing |
| `crop.dfy` | `Crop` | the crop scan in `Image.image`, over a two-dimensional array of RGBA pixels |

Three kinds of state are updated in place in the source, and each is a class
here:

- `ConfigManager._cache`, with `Lookup` for attribute access.
- `Sprite.images`, `_processed` and the packer's positions.
- `BaseManager.sprites`.

Loops that accumulate become methods proved against a specification function:

- `canvas_size` is `CanvasOf` against `Canvas`.
- The `hash_list` appends are `AppendImages` and `AppendSettings`, against `ImageHashParts` and `SettingHashParts`.
- `ratios_to_process` is `RatiosToProcess` against `Keep`.
- The crop double loop is `ScanBox`, against the predicate `Tight`.

Python exceptions are `Err` values of `Errors.Result`, so the order in which
the source raises them is part of each contract.

The source and its doc comments disagree in one place, and the model follows
the code. The `padding` docstring (glue/core.py:298) says a file name without
padding gets 10px. The default setting is `'0'` (glue/core.py:36), so
`ImagePadding` gives four zeros there.

## Model

| member | source | states |
|---|---|---|
| Config.FindInFirstHit | glue/core.py:810-815 | the search answers with the first source, in order, that has a non-`None` value |
| Config.FindInMiss | glue/core.py:810-815 | when no source has a value the defaults' `get` answers, possibly `None` |
| Config.FindInOrigin | glue/core.py:810-815 | every answer is a default or a non-`None` value of some source |
| Config.ExtendedSearch | glue/core.py:775-782 | a source put in front of the others is consulted after the command line and before all the old sources |
| Config.Clean | glue/core.py:1017-1018 | `true` and `false`, in any case, become booleans; every other string is kept unchanged |
| Config.FileConfig | glue/core.py:1019-1026 | a missing section gives `{}`; otherwise every option is present, cleaned |
| Config.ConfigManager.Find | glue/core.py:807-815 | the command-line value wins when not `None`; otherwise the search over the sources and defaults |
| Config.ConfigManager.constructor | glue/core.py:760-773 | the sources, priority and defaults given, and an empty memo |
| Config.ConfigManager.Lookup | glue/core.py:784-804 | attribute access answers what `find` answers, and records exactly that answer in the memo |
| Config.ConfigManager.Extend | glue/core.py:775-782 | a fresh manager with the new dictionary ahead of the sources, the same priority and defaults, an empty memo, and the resulting search order |
| Values.PyStrOfInt | glue/core.py:750 | the `str` of an integer setting reads back with `int` as that integer |
| Values.PyStrDistinguishes | glue/core.py:750 | two values that are not strings, or two strings, have the same `str` only when they are equal |
| Text.IntAcceptsDecimal | glue/core.py:191 | `int()` reads every number written as a sign directly followed by digits, with the strict reading's value |
| Text.SpaceAfterSign | glue/core.py:191 | `int('- 1')` is -1: whitespace between the sign and the digits is skipped, which the strict reading rejects |
| Errors.IntOf | glue/core.py:191 | `int()` of a setting: `None` is a TypeError, booleans count 0 and 1, a string must parse (else ValueError) |
| Errors.IntOfPrintedInt | glue/core.py:191 | a margin written as the decimal form of a number reads back as that number |
| Padding.LastPaddingBlock | glue/core.py:288-290 | the search from the last block down to the second finds the last `PADDING_REGEXP` block, or none |
| Padding.PaddingInfo | glue/core.py:286-291 | `[]` exactly when no block after the first is padding; otherwise the last such block split at `-`, with 1 to 4 digit runs |
| Padding.PaddingInfoBlock | glue/core.py:248-252 | the padding info joined with `-` is the block it came from |
| Padding.ParseAll | glue/core.py:222 | `map(int, ...)` succeeds exactly when every token parses, giving each token's value; else ValueError |
| Padding.Expand | glue/core.py:209-221 | 4 tokens as given; 3, 2 and 1 expand as `[a,b,c,b]`, `[a,b,a,b]` and `[a,a,a,a]`; any other count gives `'0'` four times |
| Padding.GeneratePadding | glue/core.py:203-222 | a string loses `px` and is split at whitespace; the result is always 4 integers, each the parse of its expanded token; a ValueError exactly when a used token is not a number |
| Padding.ExpansionCoversTokens | glue/core.py:209-222 | the expanded tokens all parse exactly when every given token parses, or the count falls back to the default |
| Padding.ExpansionTable | glue/core.py:209-222 | the four values by token count: `[a,b,c,d]`, `[a,b,c,b]`, `[a,b,a,b]`, `[a,a,a,a]`, and `[0,0,0,0]` for other counts |
| Padding.FilenamePaddingParses | glue/core.py:286-308 | padding read from a file name always converts, to four non-negative values |
| Padding.SettingPadding | glue/core.py:306-308 | a string setting goes through `_generate_padding`; any other value fails `len()` with a TypeError |
| Padding.ImagePadding | glue/core.py:294-308 | the file name's padding unless it has none or `ignore_filename_paddings` is set; then the sprite setting |
| Padding.PaddingSums | glue/core.py:310-318 | horizontal is right plus left and vertical is top plus bottom, per token count (`2a`/`2a`, `2b`/`2a`, `2b`/`a+c`, `0`/`0`) |
| Padding.PaddingOfTwoBlocks | glue/core.py:288-291 | `a_b` with `b` a padding block has `b`'s padding |
| Padding.PaddingOfThreeBlocks | glue/core.py:288-291 | in `a_b_c`, `b` is found when `c` is not padding |
| Padding.ExampleOneValue | glue/core.py:299 | `cow_20` has padding `["20"]` |
| Padding.ExampleThreeValues | glue/core.py:300 | `cow_1-2-3` has padding `["1","2","3"]` |
| Padding.ExampleNoPadding | glue/core.py:288-291 | `cow`, and `20` as a first block, carry no padding |
| Padding.NotPaddingBlock | glue/core.py:25 | a block starting with something other than a digit is not padding |
| Padding.ExampleLaterBlock | glue/core.py:288-291 | `cow_20_hover` still pads by 20 |
| Templates.Format | glue/core.py:272 | a template without `%` is unchanged; a failure is always a ValueError |
| Templates.FormatSprite | glue/core.py:272 | text before the first directive is copied, and `%(sprite)s` becomes the sprite name |
| Names.SplitExtension | glue/core.py:115 | `rsplit('.', 1)` unpacks exactly when the name has a dot, into parts that rebuild it with a dot-free format |
| Names.SplitExtensionOfName | glue/core.py:115 | splitting undoes appending an extension |
| Names.PseudoCandidates | glue/core.py:117-121 | no candidate without an underscore; otherwise exactly the blocks that are pseudo-classes |
| Names.ChoosePseudo | glue/core.py:117-122 | some admissible pseudo-class choice exists for every file name |
| Names.PseudoClassShape | glue/core.py:30-32 | every member of `PSEUDO_CLASSES` is a word of lower-case letters and dashes |
| Names.PseudoWordIsPlain | glue/core.py:30-32 | such a word has no underscore, is not a padding block and survives cleaning |
| Names.SinglePseudo | glue/core.py:117-121 | with exactly one pseudo-class block, `pseudo` is `:` and that block |
| Names.NoUnderscoreNoPseudo | glue/core.py:117-122 | a name without `_` never has a pseudo-class |
| Names.CleanName | glue/core.py:259 | the result keeps only `[\w-]` characters and leaves a clean name as it is |
| Names.CleanNameCounts | glue/core.py:259 | every allowed character is kept as often as it occurs, and every other is dropped |
| Names.SpriteComponent | glue/core.py:270-272 | no component when `sprite_namespace` is false; when it is a string, the formatted cleaned sprite name or the format error; any other truthy value is a TypeError |
| Names.CamelCase | glue/core.py:279-281 | the first component is as is, and every later one is capitalised |
| Names.Assemble | glue/core.py:261-283 | error precedence (TypeError of the sprite namespace, then the AttributeError of a non-string separator); with a plain separator the result ends with the image part (the full layout is `Names.ClassNamePrefix`) |
| Names.ClassName | glue/core.py:225-283 | the same precedence; with a plain separator the class name ends with the cleaned, unpadded name without the pseudo block, followed by the pseudo-class |
| Names.ClassNamePrefix | glue/core.py:261-283 | with a string separator other than `camelcase`, a namespace that is a string or unset, and a sprite namespace that is unset or formats: the class name is `<namespace><sep>` when set, then `<formatted sprite namespace><sep>` when set, then the image part and the pseudo-class |
| Names.DefaultClassName | glue/core.py:225-283 | with the default settings the class name is `sprite-<sprite>-<image><pseudo>` |
| Names.DefaultAssemble | glue/core.py:261-283 | the default settings join namespace, sprite name and image part with `-` |
| Names.SpriteNamespaceDefault | glue/core.py:270-272 | the default `%(sprite)s` yields the cleaned sprite name |
| Names.PlainName | glue/core.py:236 | `cat` gives image part `cat` |
| Names.PaddedName | glue/core.py:237 | `cow_20` gives image part `cow` |
| Names.PseudoName | glue/core.py:238 | `cat_hover` gives image part `cat` (and `:hover` is appended) |
| Names.PaddedPseudoName | glue/core.py:239 | `cow_20_hover` gives image part `cow` |
| Names.UnpadBlock | glue/core.py:248-252 | what is removed is `_` followed by the padding block |
| Names.DropPseudo | glue/core.py:255-256 | `_` followed by the pseudo-class is removed from the name |
| Names.CamelCaseClassName | glue/core.py:278-283 | with `camelcase` as separator the components are run together and all but the first are capitalised |
| Names.CamelCaseAssemble | glue/core.py:278-283 | the same for the assembly step |
| Sorting.Insert | glue/core.py:402 | inserting into a sorted list keeps it sorted and adds exactly one element |
| Sorting.Sort | glue/core.py:402 | `sorted` gives a permutation, sorted by the order |
| Sorting.SortKeepsElements | glue/core.py:402 | the sort keeps the length and the elements |
| Sorting.SortedUnique | glue/core.py:739 | two sorted permutations are equal when no two different elements compare equal |
| Ordering.StripSign | glue/core.py:325 | exactly one leading `-` is removed |
| Ordering.ParseOrdering | glue/core.py:324-328 | the four names map to the four measures; anything else is InvalidImageOrdering carrying the stripped name |
| Ordering.PrecedesReflexive | glue/core.py:330-339 | `__lt__` compares with `<=`, so every image is "less" than itself |
| Ordering.PrecedesTotalPreorder | glue/core.py:330-339 | `__lt__` on measures is total and transitive |
| Ordering.Reverse | glue/core.py:402 | `reverse` is `ordering[0] != '-'`; an empty string is an IndexError, and a non-string a TypeError |
| Ordering.OrderOfIsTotalPreorder | glue/core.py:402 | the order used in either direction is a total preorder |
| Ordering.SortByMeasure | glue/core.py:402 | a permutation whose measures ascend, or descend when reversed |
| Images.NewImage | glue/core.py:108-122 | a ValueError exactly when the name has no dot; otherwise file name and format rebuild the name, and the pseudo-class is admissible |
| Images.AbsoluteSize | glue/core.py:186-201 | the margin's `int()` fails first; then the size exists exactly when the padding does, and a failure comes from the sprite setting |
| Images.Scaled | glue/core.py:191-193 | non-negative padding, margin and ratio never shrink the size |
| Images.SizeErrorsAgree | glue/core.py:186-201 | any two images without a size fail with the same error |
| Images.SizeCovers | glue/core.py:186-201 | with non-negative margin and padding the absolute size covers the image |
| Images.Sizes | glue/core.py:186-201 | every image's absolute size, in order, or an error of an image without one |
| Images.MapResults | glue/core.py:380 | a comprehension whose element may raise: all values in order, or the error of a failing element |
| Images.SizesError | glue/core.py:186-201 | the list's error is the error of any image without a size |
| Images.SizesOfPermutation | glue/core.py:402 | reordering keeps the sizes computable |
| Images.Arrange | glue/core.py:390-405 | unknown algorithm first, then `ordering[0]`, then (with 2 or more images) the ordering name and sizes; success is a permutation sorted by measure in the chosen direction, unchanged below two images |
| Images.Boxes | glue/core.py:439-441 | one box per image |
| Images.Canvas | glue/core.py:437-447 | the running maxima start from 0 and stay non-negative |
| Images.CanvasOf | glue/core.py:437-447 | the loop computes `Canvas` of the boxes |
| Images.CanvasContains | glue/core.py:437-447 | every image's box lies within the canvas |
| Images.CanvasTight | glue/core.py:437-447 | each side of the canvas is 0 or the far edge of some image |
| Images.CanvasLeast | glue/core.py:437-447 | the canvas is the least non-negative size containing every image |
| Images.PathOrderIsTotalPreorder | glue/core.py:739 | ordering by path is a total preorder |
| Images.ByPath | glue/core.py:739 | a permutation with paths ascending |
| Images.ImageHashParts | glue/core.py:739-741 | path then data of every image, in order |
| Images.KeptKeys | glue/core.py:743-748 | exactly the given setting names other than `html`, `quiet` and `force`, each once when the names are distinct |
| Images.KeptDefaultKeys | glue/core.py:743-750 | over any order of the names of `DEFAULT_SETTINGS`, the hash reads exactly the settings other than `html`, `quiet` and `force`, each once |
| Images.SettingHashLayout | glue/core.py:743-750 | the settings part is name then `str(value)` for each kept name, in order |
| Images.SettingHashIgnoresFlags | glue/core.py:745-747 | the values of `html`, `quiet` and `force` cannot change the hash input |
| Images.AppendImages | glue/core.py:738-741 | the append loop builds `ImageHashParts` after the given prefix |
| Images.AppendSettings | glue/core.py:743-750 | the append loop builds `SettingHashParts`, keeping the memo sound |
| Images.Hash | glue/core.py:752 | a prefix of the digest of the joined `HashInput`, ten characters long unless the digest is shorter |
| Images.HashOrderIndependent | glue/core.py:733-741 | when paths are unique, the order the images were found in does not change the hash input |
| Validation.DistinctIffCardinality | glue/core.py:381 | `len(set(xs)) == len(xs)` exactly when no name repeats |
| Validation.ClassNames | glue/core.py:380 | every image's class name in order, or else exactly the error of some image whose class name fails |
| Validation.Duplicates | glue/core.py:382 | only images whose class name occurs at least twice are reported |
| Validation.DuplicatesBoth | glue/core.py:382 | two images with repeated names are both reported |
| Validation.DuplicatesOne | glue/core.py:382 | every image whose name repeats is reported |
| Validation.Paths | glue/core.py:383 | the path of every reported image, in order |
| Validation.ValidateNames | glue/core.py:376-389 | success exactly when the class names are computable and pairwise different; a class-name error propagates; otherwise MultipleImagesWithSameName reports two paths or more |
| Validation.ValidateNamesReports | glue/core.py:381-383 | that error carries the path of every image whose class name repeats, and no other path |
| Validation.AllClassNames | glue/core.py:846 | every sprite's class names, or else exactly the error of some sprite whose class names fail |
| Validation.ValidateAll | glue/core.py:843-853 | no sprites is a TypeError from `reduce`; success exactly when all class names across sprites are computable and pairwise different; a class-name error propagates; otherwise the error is MultipleImagesWithSameName |
| Validation.ValidateAllReports | glue/core.py:848-851 | that error carries the path of every image, of any sprite, whose class name repeats across sprites |
| Validation.AllDuplicatesHas | glue/core.py:849-850 | an image of any sprite whose class name occurs twice or more among all class names is reported |
| Validation.ConcatDistinctPart | glue/core.py:846-848 | a part of a repetition-free concatenation is repetition-free |
| Validation.ValidateAllImpliesEach | glue/core.py:843-853 | when the check across sprites passes, each sprite's own check passes |
| Ratios.AddRatio | glue/core.py:366-370 | adding to an ascending set keeps it ascending and adds exactly the element |
| Ratios.SortedSet | glue/core.py:361-373 | `sorted(set(...))` is ascending with exactly the given elements |
| Ratios.RatioValues | glue/core.py:360-361 | blank pieces are skipped and every other must be a number, else ValueError |
| Ratios.RatioValuesMembers | glue/core.py:360-361 | the values read are exactly those of the non-blank pieces |
| Ratios.SpriteRatios | glue/core.py:359-373 | a non-string `ratios` is an AttributeError; the result ascends, contains exactly 1, 2 if `retina`, and the listed values |
| Ratios.DefaultRatios | glue/core.py:359-373 | the default settings give `[1]`, and `retina` gives `[1, 2]` |
| Ratios.MaxRatio | glue/core.py:704-707 | the largest ratio, at least 1 |
| Ratios.ReferenceOfOne | glue/core.py:694-702 | the reference is empty exactly for ratio 1, and `@<n>x` otherwise |
| Ratios.ReferenceInjective | glue/core.py:694-702 | different ratios get different references |
| Ratios.Take | glue/core.py:680 | `s[:n]` is a prefix of length at most `n` |
| Ratios.SpriteFilename | glue/core.py:676-681 | the sprite name, plus `_` and six hash characters with `cachebuster_filename` |
| Ratios.ImageFilenamesDistinct | glue/core.py:683-692 | the image files of different ratios have different names |
| Ratios.ImageFilenameExamples | glue/core.py:683-702 | ratio 1 writes `<name>.png`, and ratio 2 writes `<name>@2x.png` |
| Ratios.Keep | glue/core.py:456-470 | the kept ratios are exactly those selected, and the order is kept |
| Ratios.KeepAll | glue/core.py:456-470 | selecting every ratio keeps the list |
| Ratios.KeepNone | glue/core.py:456-470 | selecting none leaves the empty list |
| Ratios.Select | glue/core.py:456-470 | the loop that appends each selected ratio builds exactly the kept list |
| Ratios.KeepSnoc | glue/core.py:458-470 | one more ratio is appended exactly when selected |
| Sprites.Sprite.constructor | glue/core.py:344-374 | a sprite not yet processed, with the given fields |
| Sprites.Sprite.Create | glue/core.py:344-374 | the config is extended with the file options; a ratio error comes first, then SourceImagesNotFound for no images; otherwise a fresh valid sprite with the computed ratios |
| Sprites.Sprite.Process | glue/core.py:390-405 | once processed nothing changes; otherwise the images become `Arrange`'s result and are placed by the packer, or the error leaves everything unchanged |
| Sprites.Sprite.CanvasSize | glue/core.py:437-447 | the canvas of the placed images |
| Sprites.Sprite.CanvasHoldsImages | glue/core.py:437-447 | every image of a processed sprite lies on its canvas |
| Sprites.Sprite.HashList | glue/core.py:733-750 | over an order of the names of `DEFAULT_SETTINGS`, the appended list is `HashInput` of the images and settings |
| Sprites.Sprite.RatiosToProcess | glue/core.py:449-470 | nothing with `no_img`; otherwise exactly the ratios not already created, in order |
| Sprites.Sprite.ForceRegeneratesAll | glue/core.py:459-467 | `force` regenerates every ratio |
| Sprites.Sprite.NothingPendingWhenUpToDate | glue/core.py:456-475 | with every image up to date nothing is regenerated |
| Sprites.Sprite.StaleHashRegenerates | glue/core.py:463-470 | an image carrying another hash is regenerated |
| Managers.BaseManager.constructor | glue/core.py:820-831 | no sprites yet |
| Managers.BaseManager.ProcessSprite | glue/core.py:833-841 | a sprite-creation error leaves `sprites` unchanged; otherwise exactly one new sprite is appended |
| Managers.BaseManager.Groups | glue/core.py:846 | one group per sprite, with its images and name |
| Managers.BaseManager.ValidateCoversSprites | glue/core.py:843-853 | when the manager's check passes, every sprite's check passes |
| Managers.BaseManager.CheckedFromAllPass | glue/core.py:858-864 | when the manager's check passes, stopping at the first failing sprite changes nothing |
| Managers.BaseManager.CheckNames | glue/core.py:858-864 | each sprite's `validate` in turn, stopping at the first error, then the manager's; success whenever the manager's check passes |
| Crop.TightIsLeast | glue/core.py:150-152 | a tight box lies inside every box that holds all non-transparent pixels |
| Crop.ScanColumn | glue/core.py:160-170 | one column of the scan, skip included, only widens the bounds and keeps the bounds holding every non-transparent pixel seen so far, each bound attained by one of them |
| Crop.ScanBox | glue/core.py:154-172 | with some non-transparent pixel, the scan (column skip included) gives the tight box; with none, it gives `(maxint, maxint, 1, 1)` |
| Crop.CropBoxOf | glue/core.py:154-172 | no crop exactly for a fully transparent image; otherwise the tight, non-empty box |

## Left out

- Decoding, converting, pasting, resizing and quantising pixels with PIL, and writing files, are foreign library calls. Image sizes and data are fields of `Image`, and the crop works on a given pixel array.
- The packing algorithms live in the `algorithms` module, which is not part of this model. `Sprite.Process` takes the packer as a function from sizes to positions.
- sha1 is a function parameter of `Images.Hash`; only the assembly of its input is modelled.
- Ratios are whole numbers, read by `Text.ParseDecimal`: a sign directly followed by digits, as `float()` reads them. `float()` parsing of fractions and the `%.1f` reference for fractional ratios are not modelled, and `round_up` of a whole number is the number.
- `_locate_images` walks the file system. `Sprite.Create` takes the images found, and `get_file_config` takes the section's options once the file is read (`Config.FileConfig`).
- Logging, `save_css`, `save_html`, the CSS templates, `image_url` and the output directories are not modelled. `image_path` is modelled only for `full=False`.
- The order of `DEFAULT_SETTINGS`, as Python's dict lists it, is not determined by the source. It is the `keys` parameter of `HashList` and `Hash`, which must list each name of `Config.DefaultSettings` exactly once (`Images.SettingNames`).
- Which pseudo-class `list(set)[-1]` picks is not determined. `Images.NewImage` takes the pick and requires only that it is admissible.
- Python's sort is left unspecified for images of equal measure (`__lt__` answers true both ways), so `Ordering.SortByMeasure` promises sortedness and a permutation, not a tie order.
- Class names and sizes are `cached_property` values computed once. They are pure functions here, because nothing they read changes after construction.
- Images.Arrange: with fewer than two images no comparison reads a size, but the unseen packer does. The model reports a missing size as `Arrange`'s error, not at the point inside the packer where it would be raised.
- `Sprites.Sprite.Process`, `Sprites.Sprite.Filename` and `Sprites.Sprite.AlreadyCreated` read settings through the pure `Find`, not through the memo. `ConfigManager.Valid` shows the two agree. `HashList` does go through `Lookup`.
- `Sprites.Sprite.CanvasSize` requires a processed sprite, because the positions come from `process`.
- `ConfigManager.__getattr__` first tries `__getattribute__('_' + name)()`, so an attribute `_<name>` takes precedence over the setting `<name>`. `_sources` and `_cache` are such attributes (calling the dict `_cache` would raise TypeError), but no default setting is named `sources` or `cache`, so no default setting reaches that path and the model leaves it out.
- `Templates.Format` handles only the `%(sprite)s` and `%%` conversions in `sprite_namespace`, and gives ValueError for every other conversion. Python instead raises KeyError for another key such as `%(other)s`, TypeError for `%d` or for more than one `%s`, and formats a single `%s` as the repr of the dictionary `{'sprite': ...}`.
- `WatchManager`, the concrete managers' `process` (directory listing) and glue/managers/project.py are not part of this model.
- Crop.ScanBox: requires the image to be at most `sys.maxint` pixels in each direction, as `xrange` does.
- Text: strings are Python 2 byte strings restricted to ASCII-style character classes, with no Unicode semantics.

## Findings

| source | as written | input that shows it | evidently intended | confidence | as-written member | corrected member |
|---|---|---|---|---|---|---|
| glue/core.py:154-172 | with `crop` set, a fully transparent image keeps the scan's starting values, and `img.crop` gets `(sys.maxint, sys.maxint, 1, 1)`, whose left edge is right of its right edge | any image whose every pixel equals `TRANSPARENT` | no crop for an image without a visible pixel | medium; not executed | Crop.ScanBox | Crop.CropBoxOf |
