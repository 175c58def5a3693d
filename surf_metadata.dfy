/** The metadata rules of `normalize_surfs` and `fix_gifti_metadata`
    (smriprep/interfaces/surf.py): which transform format a file suffix selects, and how
    the pointset's GIFTI metadata is rewritten. */
module SurfMetadata {
  import opened Wrappers
  import opened Strings
  import opened Paths

  /** A GIFTI data array's metadata: a dictionary from string to string. */
  type Meta = map<string, string>

  const GeometricType := "GeometricType"
  const AnatomicalStructureSecondary := "AnatomicalStructureSecondary"

  /** The exceptions the two functions can raise in the modelled part. */
  datatype Error =
    | KeyError(key: string)  // unknown transform suffix
    | TypeError              // `os.path.join(None, ...)`

  // ---------------------------------------------------------------------------------------
  // Transform file format

  /** The formats `nitransforms` can be told to read an affine in. */
  datatype XfmFormat = Itk | Fsl | Fs

  /** The suffix that selects each format. */
  function FormatSuffix(f: XfmFormat): string {
    match f
    case Itk => ".txt"
    case Fsl => ".mat"
    case Fs => ".lta"
  }

  /** The format lookup of `normalize_surfs`: no transform file means the identity (no
      format); otherwise the file's suffix selects the format, and any other suffix
      raises `KeyError` for that suffix. */
  function TransformFormat(transformFile: Option<string>): (r: Result<Option<XfmFormat>, Error>)
    ensures transformFile.None? ==> r == Ok(None)
    ensures transformFile.Some? ==> (r.Ok? <==> Suffix(transformFile.value) in {".txt", ".mat", ".lta"})
    ensures transformFile.Some? && r.Ok? ==> r.value.Some?
    ensures r.Ok? && r.value.Some? ==> FormatSuffix(r.value.value) == Suffix(transformFile.value)
    ensures r.Err? ==> r.error == KeyError(Suffix(transformFile.value))
  {
    match transformFile
    case None => Ok(None)
    case Some(file) =>
      var suffix := Suffix(file);
      if suffix == ".txt" then Ok(Some(Itk))
      else if suffix == ".mat" then Ok(Some(Fsl))
      else if suffix == ".lta" then Ok(Some(Fs))
      else Err(KeyError(suffix))
  }

  /** A transform file whose name is a non-empty stem plus a format's suffix is read in
      that format. */
  lemma TransformFormatOfSuffix(stem: string, f: XfmFormat)
    requires Basename(stem) != []
    ensures TransformFormat(Some(stem + FormatSuffix(f))) == Ok(Some(f))
  {
    var ext := FormatSuffix(f);
    FormatSuffixShape(f);
    SuffixOfStemAndExtension(stem, ext);
    var r := TransformFormat(Some(stem + ext));
    assert r.Ok? && r.value.Some? && FormatSuffix(r.value.value) == ext;
  }

  /** Each format's suffix is a dot and three letters, and no two formats share one. */
  lemma FormatSuffixShape(f: XfmFormat)
    ensures var ext := FormatSuffix(f); |ext| == 4 && ext[0] == '.' && '.' !in ext[1..] && '/' !in ext
    ensures forall g :: FormatSuffix(g) == FormatSuffix(f) ==> g == f
    ensures FormatSuffix(f) in {".txt", ".mat", ".lta"}
  {
    forall g | FormatSuffix(g) == FormatSuffix(f) ensures g == f {
      assert FormatSuffix(g)[1] == FormatSuffix(f)[1];
    }
  }

  // ---------------------------------------------------------------------------------------
  // Metadata rewrite rules

  /** `meta.setdefault(key, value)`: sets `key` only when it is absent. */
  function SetDefault(m: Meta, key: string, value: string): (r: Meta)
    ensures r.Keys == m.Keys + {key}
    ensures r[key] == if key in m then m[key] else value
    ensures forall k :: k in m && k != key ==> r[k] == m[k]
  {
    if key in m then m else m[key := value]
  }

  /** The basename, lower-cased, names a midthickness (or graymid) surface. */
  predicate IsMidthicknessName(fname: string) {
    Contains(Lower(fname), "midthickness") || Contains(Lower(fname), "graymid")
  }

  /** The first step of `normalize_surfs`: a midthickness surface gets the two default
      entries, each only where the key is absent. */
  function WithMidthicknessDefaults(fname: string, m: Meta): (r: Meta)
    ensures !IsMidthicknessName(fname) ==> r == m
    ensures IsMidthicknessName(fname) ==> r.Keys == m.Keys + {AnatomicalStructureSecondary, GeometricType}
    ensures forall k :: k in m ==> r[k] == m[k]
    ensures AnatomicalStructureSecondary !in m && IsMidthicknessName(fname) ==> r[AnatomicalStructureSecondary] == "MidThickness"
    ensures GeometricType !in m && IsMidthicknessName(fname) ==> r[GeometricType] == "Anatomical"
  {
    if IsMidthicknessName(fname) then
      SetDefault(SetDefault(m, AnatomicalStructureSecondary, "MidThickness"), GeometricType, "Anatomical")
    else m
  }

  /** `meta.get("GeometricType") == "Sphere"`. */
  predicate IsSphere(m: Meta) {
    GeometricType in m && m[GeometricType] == "Sphere"
  }

  /** `f"VolGeom{XYZC}_{RAS}"`. */
  function VolGeomKey(axis: char, ras: char): string {
    "VolGeom" + [axis] + "_" + [ras]
  }

  /** The keys the two nested loops pop; `VolGeomKeysShape` says which strings they are. */
  function VolGeomKeys(): set<string> {
    set a, r | a in "XYZC" && r in "RAS" :: VolGeomKey(a, r)
  }

  /** The popped keys are exactly the ten-character strings `VolGeom`, an axis letter,
      `_`, a RAS letter. */
  lemma VolGeomKeysShape()
    ensures forall k :: k in VolGeomKeys() <==>
      |k| == 10 && k[..7] == "VolGeom" && k[7] in "XYZC" && k[8] == '_' && k[9] in "RAS"
  {
    forall k | |k| == 10 && k[..7] == "VolGeom" && k[7] in "XYZC" && k[8] == '_' && k[9] in "RAS"
      ensures k in VolGeomKeys()
    {
      assert k == VolGeomKey(k[7], k[9]);
    }
  }

  /** The two keys the defaults set are not volume-geometry keys. */
  lemma DefaultKeysNotVolGeom()
    ensures GeometricType !in VolGeomKeys() && AnatomicalStructureSecondary !in VolGeomKeys()
  {
    VolGeomKeysShape();
    assert |GeometricType| != 10 && |AnatomicalStructureSecondary| != 10;
  }

  /** The metadata `normalize_surfs` leaves on the pointset of file `fname`; its contract
      is `NormalizedMetaContract`. */
  function NormalizedMeta(fname: string, m: Meta): Meta {
    var m1 := WithMidthicknessDefaults(fname, m);
    if IsSphere(m1) then m1[GeometricType := "Spherical"] else m1 - VolGeomKeys()
  }

  /** A surface still labelled "Sphere" after the defaults is relabelled and keeps its
      volume geometry; any other surface loses exactly the twelve volume-geometry entries;
      no other key changes. */
  lemma NormalizedMetaContract(fname: string, m: Meta)
    ensures var m1, r := WithMidthicknessDefaults(fname, m), NormalizedMeta(fname, m);
      && (IsSphere(m1) ==> r.Keys == m1.Keys && r[GeometricType] == "Spherical")
      && (!IsSphere(m1) ==> r.Keys == m1.Keys - VolGeomKeys())
      && (forall k :: k in r && (k != GeometricType || !IsSphere(m1)) ==> r[k] == m1[k])
      && (forall k :: k !in VolGeomKeys() && k != GeometricType && k != AnatomicalStructureSecondary ==>
            (k in r <==> k in m) && (k in m ==> r[k] == m[k]))
  {
  }

  /** A midthickness surface that carried no GeometricType leaves `normalize_surfs`
      labelled `Anatomical`, with `MidThickness` as its secondary structure unless one was
      already given, and without volume geometry. */
  lemma NormalizedMidthicknessIsAnatomical(fname: string, m: Meta)
    requires IsMidthicknessName(fname) && GeometricType !in m
    ensures var r := NormalizedMeta(fname, m);
      && GeometricType in r && r[GeometricType] == "Anatomical"
      && AnatomicalStructureSecondary in r
      && r[AnatomicalStructureSecondary] ==
           (if AnatomicalStructureSecondary in m then m[AnatomicalStructureSecondary] else "MidThickness")
      && (forall k :: k in VolGeomKeys() ==> k !in r)
  {
    var m1 := WithMidthicknessDefaults(fname, m);
    assert m1[GeometricType] == "Anatomical";
    DefaultKeysNotVolGeom();
    NormalizedMetaContract(fname, m);
  }

  /** The metadata `fix_gifti_metadata` leaves: only a "Sphere" GeometricType changes. */
  function FixedMeta(m: Meta): (r: Meta)
    ensures r.Keys == m.Keys
    ensures forall k :: k in m && k != GeometricType ==> r[k] == m[k]
    ensures GeometricType in m ==>
      r[GeometricType] == if m[GeometricType] == "Sphere" then "Spherical" else m[GeometricType]
  {
    if IsSphere(m) then m[GeometricType := "Spherical"] else m
  }

  /** Fixing twice is fixing once. */
  lemma FixedMetaIdempotent(m: Meta)
    ensures FixedMeta(FixedMeta(m)) == FixedMeta(m)
  {
  }

  /** On a sphere, `normalize_surfs` does to the metadata what `fix_gifti_metadata` does
      after the midthickness defaults. */
  lemma NormalizedSphereIsFixed(fname: string, m: Meta)
    requires IsSphere(WithMidthicknessDefaults(fname, m))
    ensures NormalizedMeta(fname, m) == FixedMeta(WithMidthicknessDefaults(fname, m))
  {
  }

  /** A surface already labelled "Spherical" is not recognised as a sphere, so it loses its
      volume geometry like an anatomical surface; running `normalize_surfs` again on its own
      output therefore strips what the first run kept. */
  lemma NormalizedSphericalLosesVolGeom(fname: string, m: Meta)
    requires GeometricType in m && m[GeometricType] == "Spherical"
    ensures forall k :: k in VolGeomKeys() ==> k !in NormalizedMeta(fname, m)
    ensures GeometricType in NormalizedMeta(fname, m) && NormalizedMeta(fname, m)[GeometricType] == "Spherical"
  {
    var m1 := WithMidthicknessDefaults(fname, m);
    assert !IsSphere(m1);
    DefaultKeysNotVolGeom();
  }

  // ---------------------------------------------------------------------------------------
  // Output file name

  /** Where the result is written: the input's basename in the working directory. A given
      `newpath` is replaced by the working directory `cwd`, and an absent one makes
      `os.path.join(None, ...)` raise. */
  function OutputPath(newpath: Option<string>, cwd: string, fname: string): (r: Result<string, Error>)
    ensures r.Err? <==> newpath.None?
    ensures r.Err? ==> r.error == TypeError
  {
    match newpath
    case None => Err(TypeError)
    case Some(_) => Ok(Join(cwd, fname))
  }

  /** Both functions name their output after the input file. */
  lemma OutputNamedAfterInput(inFile: string, newpath: Option<string>, cwd: string)
    requires newpath.Some?
    ensures OutputPath(newpath, cwd, Basename(inFile)).Ok?
    ensures Basename(OutputPath(newpath, cwd, Basename(inFile)).value) == Basename(inFile)
  {
    BasenameIsLastComponent(inFile);
    JoinBasename(cwd, Basename(inFile));
  }

  // ---------------------------------------------------------------------------------------
  // The in-place edits

  /** The pointset data array of a loaded GIFTI image; only its metadata is modelled. */
  class GiftiDataArray {
    var meta: Meta

    constructor (meta: Meta)
      ensures this.meta == meta
    {
      this.meta := meta;
    }
  }

  /** `normalize_surfs` on an image whose pointset is `pointset`: look up the transform
      format, then edit the metadata in place, then name the output. */
  method NormalizeSurfs(inFile: string, transformFile: Option<string>, newpath: Option<string>,
                        cwd: string, pointset: GiftiDataArray) returns (r: Result<string, Error>)
    modifies pointset
    ensures TransformFormat(transformFile).Err? ==>
      r == Err(TransformFormat(transformFile).error) && pointset.meta == old(pointset.meta)
    ensures TransformFormat(transformFile).Ok? ==>
      pointset.meta == NormalizedMeta(Basename(inFile), old(pointset.meta))
      && r == OutputPath(newpath, cwd, Basename(inFile))
  {
    var format := TransformFormat(transformFile);
    if format.Err? {
      return Err(format.error);
    }
    var fname := Basename(inFile);
    AddMidthicknessDefaults(fname, pointset);
    if GeometricType in pointset.meta && pointset.meta[GeometricType] == "Sphere" {
      pointset.meta := pointset.meta[GeometricType := "Spherical"];
    } else {
      RemoveVolGeom(pointset);
    }
    r := OutputPath(newpath, cwd, fname);
  }

  /** The two `setdefault` calls of `normalize_surfs`, made for a midthickness file. */
  method AddMidthicknessDefaults(fname: string, pointset: GiftiDataArray)
    modifies pointset
    ensures pointset.meta == WithMidthicknessDefaults(fname, old(pointset.meta))
  {
    if IsMidthicknessName(fname) {
      pointset.meta := SetDefault(pointset.meta, AnatomicalStructureSecondary, "MidThickness");
      pointset.meta := SetDefault(pointset.meta, GeometricType, "Anatomical");
    }
  }

  /** The keys popped once the loops have done the first `i` axes, and `j` of the RAS
      letters of axis `i`. */
  ghost function Popped(i: nat, j: nat): set<string>
    requires i <= 4 && j <= 3
  {
    (set a, r | a in "XYZC"[..i] && r in "RAS" :: VolGeomKey(a, r))
      + (if i < 4 then set r | r in "RAS"[..j] :: VolGeomKey("XYZC"[i], r) else {})
  }

  /** The two nested loops of `normalize_surfs` that pop every `VolGeom{XYZC}_{RAS}` key. */
  method RemoveVolGeom(pointset: GiftiDataArray)
    modifies pointset
    ensures pointset.meta == old(pointset.meta) - VolGeomKeys()
  {
    var axes, letters := "XYZC", "RAS";
    var i := 0;
    while i < |axes|
      invariant 0 <= i <= |axes|
      invariant pointset.meta == old(pointset.meta) - Popped(i, 0)
    {
      var j := 0;
      while j < |letters|
        invariant 0 <= j <= |letters|
        invariant pointset.meta == old(pointset.meta) - Popped(i, j)
      {
        pointset.meta := pointset.meta - {VolGeomKey(axes[i], letters[j])};
        assert Popped(i, j + 1) == Popped(i, j) + {VolGeomKey(axes[i], letters[j])} by {
          assert letters[..j + 1] == letters[..j] + [letters[j]];
        }
        j := j + 1;
      }
      assert Popped(i + 1, 0) == Popped(i, 3) by {
        assert axes[..i + 1] == axes[..i] + [axes[i]];
        assert letters[..3] == letters;
      }
      i := i + 1;
    }
    assert Popped(4, 0) == VolGeomKeys() by {
      assert axes[..4] == axes;
    }
  }

  /** `fix_gifti_metadata` on an image whose pointset is `pointset`. */
  method FixGiftiMetadata(inFile: string, newpath: Option<string>, cwd: string, pointset: GiftiDataArray)
      returns (r: Result<string, Error>)
    modifies pointset
    ensures pointset.meta == FixedMeta(old(pointset.meta))
    ensures r == OutputPath(newpath, cwd, Basename(inFile))
  {
    if GeometricType in pointset.meta && pointset.meta[GeometricType] == "Sphere" {
      pointset.meta := pointset.meta[GeometricType := "Spherical"];
    }
    r := OutputPath(newpath, cwd, Basename(inFile));
  }
}
