# smriprep surface interfaces and output-space parsing, in Dafny

This project models two parts of smriprep, the structural MRI preprocessing pipeline.

**Surface handling (`smriprep/interfaces/surf.py`).**

- `AggregateSurfaces` collects GIFTI surfaces and morphometry maps. It pools them and orders them by basename. It then files each one under the first surface name (`white`, `pial`, `inflated`, `midthickness`, `thickness`, `sulc`, `curv`) that the pattern `(?:^|[^d])(name)` finds in its basename.
  - The pattern search is modelled as a scan over match starts (`SurfAggregate.Classify`).
  - The scan is proved to return the name at the leftmost *valid* occurrence. An occurrence is valid at index 0 or right after a character other than `d`.
  - The sort is a stable insertion sort on basenames. It is proved to be an ordered permutation.
  - The loop that fills the `defaultdict(list)` is an imperative method. It is proved equal to a filing function. That function is proved to keep, per category, exactly the inputs of that category, in basename order.
- `normalize_surfs` and `fix_gifti_metadata` edit the metadata of the pointset data array in place. That array is a class with a `meta` field.
  - The transform suffix selects a format: `.txt` is ITK, `.mat` is FSL, `.lta` is FreeSurfer, and any other suffix raises `KeyError`.
  - Midthickness and graymid surfaces get `setdefault` entries.
  - A `Sphere` label is renamed `Spherical`. Otherwise the two nested loops pop the twelve `VolGeom{XYZC}_{RAS}` keys; this is an imperative method with loop invariants.
  - The output name is the input's basename joined to a directory. When `newpath` is given, that directory is the working directory. When `newpath` is `None`, `os.path.join(None, …)` raises. This is modelled as written: the error comes after the metadata has already been edited.

**Output-space specifiers (`smriprep/cli/tests/test_utils.py`).**

- `output_space` parses `Name[:group...]`:
  - each group is comma-separated tokens;
  - a bare token is a flag with value `True`;
  - `key-value` maps the key to the string value;
  - the result is one `(name, modifiers)` pair per group, or one pair with no modifiers when there is no group;
  - a name that is neither a registry template nor a nonstandard space raises `ValueError`.
- `_template` concatenates the pairs of a list of specifiers and fails as a whole if any entry fails.
- `ParseTemplates` holds the class-level set of nonstandard spaces, which `set_nonstandard_spaces` updates. It is a class with one field.
- The template registry is a parameter. `OutputSpacesExamples` instantiates it with the three templates of the test module and derives every assertion of both test functions. The stateful sequence of `test_template_parser` is a method (`TemplateParserSession`).

Layout:

- `wrappers.dfy`: `Option` and `Result`.
- `strings.dfy`: substring tests, ASCII lower-casing, `str.split` with its inverse, lexicographic order.
- `paths.dfy`: `os.path.basename`, `os.path.join`, and `pathlib`'s `suffix`.
- `surf_aggregate.dfy`, `surf_metadata.dfy`, `output_spaces.dfy`, `output_spaces_examples.dfy`.

## Model

| member | source | states |
|---|---|---|
| SurfAggregate.GroupAt | smriprep/interfaces/surf.py:149 | the named group tried at one index yields only an alternative whose name starts there, and nothing only when no alternative starts there |
| SurfAggregate.GroupAtIff | smriprep/interfaces/surf.py:149 | since no two names share a first letter, the alternation at an index yields a category exactly when that category's name starts there |
| SurfAggregate.ClassifyIsLeftmostName | smriprep/interfaces/surf.py:148-152 | `findre.search(basename)` yields `c` exactly when `c`'s name is the leftmost valid occurrence (at the start or after a non-`d` character); it yields no match exactly when there is no valid occurrence |
| SurfAggregate.ThicknessNeverInsideMidthickness | smriprep/interfaces/surf.py:148-152 | a basename filed under `thickness` has its leftmost valid `thickness` outside any `midthickness`; the `[^d]` guard stops the `thickness` inside `midthickness` from matching |
| SurfAggregate.MidthicknessFiledAsMidthickness | smriprep/interfaces/surf.py:148-154 | a matchable `midthickness` with no valid name before it files the basename under `midthickness` |
| SurfAggregate.SortByBasename | smriprep/interfaces/surf.py:151 | `sorted(inputs, key=os.path.basename)` is a permutation of the inputs in ascending basename order |
| SurfAggregate.GroupingIsFilesOf | smriprep/interfaces/surf.py:153-154 | appending each matched path to its category's list gives, per category, exactly that category's paths in visiting order, and creates only lists that receive a path |
| SurfAggregate.GroupFiles | smriprep/interfaces/surf.py:151-154 | the `defaultdict(list)` loop leaves the container equal to the path-by-path filing of the ordered inputs |
| SurfAggregate.Aggregate | smriprep/interfaces/surf.py:146-154 | the container built from the pooled inputs equals the filing of their basename-sorted order |
| SurfAggregate.AggregatedFilesAreClassifiedInputs | smriprep/interfaces/surf.py:147-154 | every grouped path is one of the surfaces or morphometrics, and its basename classifies to the category it is listed under |
| SurfAggregate.AggregatedListsAreExactlyTheInputs | smriprep/interfaces/surf.py:147-154 | each category's list holds every input of that category as many times as it was given (duplicates kept), and no other path |
| SurfAggregate.AggregatedKeys | smriprep/interfaces/surf.py:153-156 | an output field is set exactly when some input is filed under its category |
| SurfAggregate.AggregatedListsSorted | smriprep/interfaces/surf.py:151-154 | within every output list the paths are in ascending basename order |
| SurfAggregate.GroupedCountIsMatchingCount | smriprep/interfaces/surf.py:151-154 | the lists together hold one entry per visited path that matched |
| SurfAggregate.AggregatedCount | smriprep/interfaces/surf.py:147-154 | the output lists together hold exactly as many files as there are inputs whose basename matches a name |
| SurfAggregate.AggregateSurfaces.RunInterface | smriprep/interfaces/surf.py:141-157 | `_run_interface` sets one result field per non-empty group and leaves every other field as it was |
| Paths.BasenameIsLastComponent | smriprep/interfaces/surf.py:189 | `os.path.basename` is the slash-free tail of the path that follows its last `/` |
| Paths.JoinBasename | smriprep/interfaces/surf.py:211 | joining a directory and a slash-free name gives a path whose basename is that name |
| Paths.Suffix | smriprep/interfaces/surf.py:182 | `Path(p).suffix` is empty or a final `.`-extension of the last component: a dot, at least one more character and no further dot, with a non-empty stem before it |
| Paths.SuffixOfStemAndExtension | smriprep/interfaces/surf.py:182 | a file named by a non-empty stem and an extension has that extension as its suffix |
| SurfMetadata.TransformFormat | smriprep/interfaces/surf.py:175-182 | no transform file means identity; otherwise the suffix is looked up, succeeding exactly for `.txt`/`.mat`/`.lta` with the format of that suffix, and raising `KeyError(suffix)` for any other |
| SurfMetadata.TransformFormatOfSuffix | smriprep/interfaces/surf.py:178-182 | a transform file named `stem.txt`, `stem.mat` or `stem.lta` is read as ITK, FSL or FreeSurfer respectively |
| SurfMetadata.SetDefault | smriprep/interfaces/surf.py:191-192 | `setdefault` adds the key with the default only when absent and changes no existing entry |
| SurfMetadata.WithMidthicknessDefaults | smriprep/interfaces/surf.py:189-192 | a basename containing `midthickness` or `graymid` (case-insensitive) gains both keys, with their defaults only where absent; other files' metadata is untouched; no existing value changes |
| SurfMetadata.VolGeomKeysShape | smriprep/interfaces/surf.py:205-207 | the popped keys are exactly `VolGeom` + one of `XYZC` + `_` + one of `RAS` |
| SurfMetadata.NormalizedMetaContract | smriprep/interfaces/surf.py:189-207 | after the defaults, a `Sphere` surface is relabelled `Spherical` and keeps all its keys; any other surface loses exactly the volume-geometry keys and keeps every other value, GeometricType included; no other entry changes |
| SurfMetadata.NormalizedMidthicknessIsAnatomical | smriprep/interfaces/surf.py:189-207 | a midthickness or graymid surface with no GeometricType comes out labelled `Anatomical`, with `MidThickness` as secondary structure unless one was given, and without volume geometry |
| SurfMetadata.NormalizedSphereIsFixed | smriprep/interfaces/surf.py:194-196 | on a sphere, `normalize_surfs` edits the metadata exactly as `fix_gifti_metadata` does after the midthickness defaults |
| SurfMetadata.NormalizedSphericalLosesVolGeom | smriprep/interfaces/surf.py:195-207 | a surface already labelled `Spherical` is not recognised as a sphere, so it loses its volume geometry and keeps its label |
| SurfMetadata.FixedMeta | smriprep/interfaces/surf.py:230-231 | the fix keeps every key and value except a `Sphere` GeometricType, which becomes `Spherical` |
| SurfMetadata.FixedMetaIdempotent | smriprep/interfaces/surf.py:230-231 | fixing twice is fixing once |
| SurfMetadata.OutputPath | smriprep/interfaces/surf.py:209-211 | naming the output raises `TypeError` exactly when `newpath` is absent, since a given `newpath` is replaced by the working directory |
| SurfMetadata.OutputNamedAfterInput | smriprep/interfaces/surf.py:209-211 | with `newpath` given, the output file has the input's basename |
| SurfMetadata.AddMidthicknessDefaults | smriprep/interfaces/surf.py:189-192 | the two in-place `setdefault` calls leave the metadata equal to the midthickness defaults applied to the old metadata |
| SurfMetadata.NormalizeSurfs | smriprep/interfaces/surf.py:174-213 | an unknown transform suffix raises before the metadata is touched; otherwise the pointset metadata becomes the normalized metadata of the input's basename, and the output path is named after the input |
| SurfMetadata.RemoveVolGeom | smriprep/interfaces/surf.py:205-207 | the nested `pop` loops remove exactly the twelve volume-geometry keys and nothing else |
| SurfMetadata.FixGiftiMetadata | smriprep/interfaces/surf.py:224-237 | the pointset metadata becomes its fixed form and the output path is named after the input |
| OutputSpaces.ParseToken | smriprep/cli/tests/test_utils.py:18-21 | a token parses to the modifier that renders back to it; it is a bare flag exactly when it has no dash |
| OutputSpaces.ParseRender | smriprep/cli/tests/test_utils.py:18-21 | rendering a well-formed modifier and parsing it back gives the same modifier |
| OutputSpaces.MergeContents | smriprep/cli/tests/test_utils.py:18-25 | a group's mapping has a key exactly when some token has it, with `True` for a flag and the string after the dash otherwise |
| OutputSpaces.OutputSpaceContract | smriprep/cli/tests/test_utils.py:17-28 | `output_space` raises exactly for a name in neither the registry nor the nonstandard set; otherwise it returns one pair per group (one pair with no modifiers if there are none), each carrying the name and its group's mapping |
| OutputSpaces.TemplateContract | smriprep/cli/tests/test_utils.py:36-47 | `_template` succeeds exactly when every entry does, and when it fails it fails with the error of one of the entries |
| OutputSpaces.TemplateConcat | smriprep/cli/tests/test_utils.py:37-41 | `_template` of two lists is their results concatenated in order (duplicates kept), or the first failure |
| OutputSpaces.TemplateSingle | smriprep/cli/tests/test_utils.py:36 | `_template` of one entry is `output_space` of that entry |
| OutputSpaces.BareName | smriprep/cli/tests/test_utils.py:17 | an accepted name without groups gives exactly one pair with no modifiers |
| OutputSpaces.OnePairPerGroup | smriprep/cli/tests/test_utils.py:22-23 | `Name:g1:...:gN` gives N pairs in group order, all named `Name` |
| OutputSpaces.GroupOfModifiers | smriprep/cli/tests/test_utils.py:24-25 | a group written from modifiers with distinct keys parses back to those modifiers, and its mapping merges them |
| OutputSpaces.UnknownNameRaises | smriprep/cli/tests/test_utils.py:27-28 | an unknown name raises whatever its modifiers |
| OutputSpaces.ParseTemplates.SetNonstandardSpaces | smriprep/cli/tests/test_utils.py:52-56 | afterwards every given name (one name or a list) is accepted, and nothing that was neither given nor accepted before is |
| OutputSpacesExamples.OneGroup | smriprep/cli/tests/test_utils.py:18-25 | `Name:group` gives one pair with the group's merged modifiers, or raises for an unknown name |
| OutputSpacesExamples.WithResolution | smriprep/cli/tests/test_utils.py:20-21 | `Name:res-N` gives one pair mapping `res` to the string `N`, or raises for an unknown name |
| OutputSpacesExamples.ExampleBareName | smriprep/cli/tests/test_utils.py:17 | `MNI152NLin2009cAsym` gives `[('MNI152NLin2009cAsym', {})]` |
| OutputSpacesExamples.ExampleFlag | smriprep/cli/tests/test_utils.py:18-19 | `MNI152NLin2009cAsym:native` gives `{'native': True}` |
| OutputSpacesExamples.ExampleKeyValue | smriprep/cli/tests/test_utils.py:20-21 | `MNI152NLin2009cAsym:res-2` gives `{'res': '2'}` |
| OutputSpacesExamples.ExampleTwoGroups | smriprep/cli/tests/test_utils.py:22-23 | `MNI152NLin6Asym:res-1:res-2` gives two pairs, `res` 1 then 2 |
| OutputSpacesExamples.ExampleTwoTokens | smriprep/cli/tests/test_utils.py:24-25 | `MNIInfant:res-2,cohort-1` gives one pair with both keys |
| OutputSpacesExamples.ExampleUnknown | smriprep/cli/tests/test_utils.py:27-28 | `UnkownTemplate` raises |
| OutputSpacesExamples.ExampleTemplateSingle | smriprep/cli/tests/test_utils.py:36 | one bare template gives one pair |
| OutputSpacesExamples.ExampleTemplateDuplicate | smriprep/cli/tests/test_utils.py:37-38 | the same template twice is kept twice, in order |
| OutputSpacesExamples.ExampleTemplateOrder | smriprep/cli/tests/test_utils.py:40-41 | two templates come back in input order |
| OutputSpacesExamples.ExampleTemplateUnknown | smriprep/cli/tests/test_utils.py:43-44 | an unknown second entry makes the whole list raise |
| OutputSpacesExamples.ExampleTemplateUnregistered | smriprep/cli/tests/test_utils.py:46-47 | `func` before registration makes the list raise |
| OutputSpacesExamples.ExampleTemplateNonstandard | smriprep/cli/tests/test_utils.py:49-54 | a registered nonstandard name (`fsnative`, or `func` once set) after a template gives a bare pair |
| OutputSpacesExamples.ExampleTemplateBothRegistered | smriprep/cli/tests/test_utils.py:57-58 | with `func` and `fsnative` registered, the three-entry list gives three pairs in order |
| OutputSpacesExamples.TemplateParserSession | smriprep/cli/tests/test_utils.py:46-58 | with `fsnative` initially accepted: `func` first raises, is accepted after `set_nonstandard_spaces('func')`, and both parse after `set_nonstandard_spaces(['func', 'fsnative'])` |

## Left out

- Image I/O is outside the model: loading and saving GIFTI files (`nb.load`, `GiftiImage.from_filename`, `to_filename`). The model starts from the pointset's metadata and returns the output path.
- Transforms are not applied. This leaves out reading the matrix with `nitransforms`, the `np.allclose` identity test and `apply_affine` on the coordinates, all of which are floating point in foreign libraries. Only the format selection, with its `KeyError`, is modelled.
- Pointset coordinate data is not modelled.
- `get_arrays_from_intent(...)[0]` is not modelled; the pointset array is given directly. This leaves out the `IndexError` on an image without a pointset.
- The working directory (`os.getcwd()`) is a parameter `cwd`.
- The nipype interface plumbing is not modelled: the trait specs, the `maxlen=2` limit on the output lists and `runtime`. It follows that the interface wrappers of `normalize_surfs` and `fix_gifti_metadata` are left out.
- In `AggregateSurfaces`, undefined inputs (`self.inputs.surfaces or []`) are modelled as empty sequences.
- smriprep/cli/utils.py is not part of this model. `output_space`, `_template` and `ParseTemplates` are modelled only as far as the assertions of smriprep/cli/tests/test_utils.py fix their behaviour.
- OutputSpaces.OutputSpace: only well-formed specifiers are modelled. That means non-empty groups, non-empty tokens with at most one dash and non-empty sides, and distinct keys within a group. What the parser does with other strings is not fixed by the tests.
- OutputSpaces.Error: `ValueError` is one error kind carrying the rejected name; its message text is not modelled.
- OutputSpaces.ParseTemplates.SetNonstandardSpaces: the contract states only `names ⊆ new set ⊆ old set ∪ names`. Whether a call replaces or extends the set is not fixed by the tests.
- SurfAggregate.SortByBasename: stability is not stated as a lemma. Stability means paths with equal basenames keep their input order; the insertion sort has it by construction.
- SurfAggregate.Classify models this one pattern by a scan over match starts, not a general regular-expression engine.
- Strings.Lower: only ASCII letters are folded. Unicode case mapping of `str.lower` is not modelled.
- Paths.Suffix: it is computed on `os.path.basename` of the string. `pathlib`'s normalisation of the path (repeated or trailing slashes, `.` components) and Windows paths are not modelled.
- smriprep/workflows/tests/test_anatomical.py and src/smriprep/interfaces/fsl.py are not part of this model.
