/**
 * The file paths data_generator.py builds by string interpolation. `Path.resolve()`
 * depends on the working directory and is not part of the model: paths are the
 * relative strings before resolution.
 */
module Paths {
  import opened Purposes
  import opened Formatting

  /** `data/<dataset>/<purpose value>/`, the directory every sample file sits in. */
  function SampleDir(dataset: string, purpose: Purpose): string
  {
    "data/" + dataset + "/" + purpose.Value() + "/"
  }

  /** The Sentinel generator's manifest: `'../data/%s/%s/%s'`. */
  function SentinelManifestPath(dataset: string, purpose: Purpose, descriptor: string): string
  {
    "../data/" + dataset + "/" + purpose.Value() + "/" + descriptor
  }

  /** The RGB generator's manifest: `'data/%s/%s/%s'`. */
  function RgbManifestPath(dataset: string, purpose: Purpose, descriptor: string): string
  {
    "data/" + dataset + "/" + purpose.Value() + "/" + descriptor
  }

  /** `'data/%s/%s/S/S_%s.tif'`: the satellite image of a row. */
  function SatelliteImagePath(dataset: string, purpose: Purpose, id: int): string
  {
    SampleDir(dataset, purpose) + "S/S_" + PercentS(id) + ".tif"
  }

  /** `'data/%s/%s/LC/LC_%s.tif'`: the land-cover mask of a row. */
  function LandcoverMaskPath(dataset: string, purpose: Purpose, id: int): string
  {
    SampleDir(dataset, purpose) + "LC/LC_" + PercentS(id) + ".tif"
  }

  /** `'data/%s/%s/target/%s.png'` with the id formatted by `'{:04d}'`. */
  function TargetImagePath(dataset: string, purpose: Purpose, id: int): string
  {
    SampleDir(dataset, purpose) + "target/" + Format04d(id) + ".png"
  }

  /** `'data/%s/%s/condition/%s.png'` with the id formatted by `'{:04d}'`. */
  function ConditionImagePath(dataset: string, purpose: Purpose, id: int): string
  {
    SampleDir(dataset, purpose) + "condition/" + Format04d(id) + ".png"
  }

  lemma MiddleEqual(pre: string, x: string, y: string, suf: string)
    requires pre + x + suf == pre + y + suf
    ensures x == y
  {
    var s, t := pre + x + suf, pre + y + suf;
    assert x == s[|pre|..|pre| + |x|];
    assert y == t[|pre|..|pre| + |y|];
  }

  predicate IsPrefix(p: string, s: string)
  {
    |p| <= |s| && s[..|p|] == p
  }

  lemma PrefixOfAppend(p: string, rest: string)
    ensures IsPrefix(p, p + rest)
  {
    assert (p + rest)[..|p|] == p;
  }

  lemma PrefixCancel(pre: string, x: string, y: string)
    requires pre + x == pre + y
    ensures x == y
  {
    assert x == (pre + x)[|pre|..];
    assert y == (pre + y)[|pre|..];
  }

  /**
   * Sentinel sample paths: within one dataset and purpose each row id names its
   * own satellite image and its own land-cover mask, a satellite image is never a
   * mask, and both lie under `data/<dataset>/<purpose>/`.
   */
  lemma SentinelSamplePaths(dataset: string, purpose: Purpose, a: int, b: int)
    ensures SatelliteImagePath(dataset, purpose, a) == SatelliteImagePath(dataset, purpose, b) <==> a == b
    ensures LandcoverMaskPath(dataset, purpose, a) == LandcoverMaskPath(dataset, purpose, b) <==> a == b
    ensures SatelliteImagePath(dataset, purpose, a) != LandcoverMaskPath(dataset, purpose, b)
    ensures IsPrefix(SampleDir(dataset, purpose), SatelliteImagePath(dataset, purpose, a))
    ensures IsPrefix(SampleDir(dataset, purpose), LandcoverMaskPath(dataset, purpose, a))
  {
    var dir := SampleDir(dataset, purpose);
    if SatelliteImagePath(dataset, purpose, a) == SatelliteImagePath(dataset, purpose, b) {
      MiddleEqual(dir + "S/S_", PercentS(a), PercentS(b), ".tif");
      PercentSInjective(a, b);
    }
    if LandcoverMaskPath(dataset, purpose, a) == LandcoverMaskPath(dataset, purpose, b) {
      MiddleEqual(dir + "LC/LC_", PercentS(a), PercentS(b), ".tif");
      PercentSInjective(a, b);
    }
    assert SatelliteImagePath(dataset, purpose, a)[|dir|] == 'S';
    assert LandcoverMaskPath(dataset, purpose, b)[|dir|] == 'L';
    Assoc(dir, "S/S_", PercentS(a), ".tif");
    PrefixOfAppend(dir, "S/S_" + PercentS(a) + ".tif");
    Assoc(dir, "LC/LC_", PercentS(a), ".tif");
    PrefixOfAppend(dir, "LC/LC_" + PercentS(a) + ".tif");
  }

  /**
   * RGB sample paths: within one dataset and purpose each row id names its own
   * target and its own condition image; the two of a row differ only in the
   * `target`/`condition` directory, so a target is never a condition image; both
   * lie under `data/<dataset>/<purpose>/`.
   */
  lemma RgbSamplePaths(dataset: string, purpose: Purpose, a: int, b: int)
    ensures TargetImagePath(dataset, purpose, a) == TargetImagePath(dataset, purpose, b) <==> a == b
    ensures ConditionImagePath(dataset, purpose, a) == ConditionImagePath(dataset, purpose, b) <==> a == b
    ensures TargetImagePath(dataset, purpose, a) != ConditionImagePath(dataset, purpose, b)
    ensures var dir, name := SampleDir(dataset, purpose), Format04d(a) + ".png";
      TargetImagePath(dataset, purpose, a) == dir + "target/" + name &&
      ConditionImagePath(dataset, purpose, a) == dir + "condition/" + name
    ensures IsPrefix(SampleDir(dataset, purpose), TargetImagePath(dataset, purpose, a))
    ensures IsPrefix(SampleDir(dataset, purpose), ConditionImagePath(dataset, purpose, a))
  {
    var dir := SampleDir(dataset, purpose);
    if TargetImagePath(dataset, purpose, a) == TargetImagePath(dataset, purpose, b) {
      MiddleEqual(dir + "target/", Format04d(a), Format04d(b), ".png");
      Format04dInjective(a, b);
    }
    if ConditionImagePath(dataset, purpose, a) == ConditionImagePath(dataset, purpose, b) {
      MiddleEqual(dir + "condition/", Format04d(a), Format04d(b), ".png");
      Format04dInjective(a, b);
    }
    assert TargetImagePath(dataset, purpose, a)[|dir|] == 't';
    assert ConditionImagePath(dataset, purpose, b)[|dir|] == 'c';
    Assoc(dir, "target/", Format04d(a), ".png");
    PrefixOfAppend(dir, "target/" + Format04d(a) + ".png");
    Assoc(dir, "condition/", Format04d(a), ".png");
    PrefixOfAppend(dir, "condition/" + Format04d(a) + ".png");
  }

  lemma Assoc(a: string, b: string, c: string, d: string)
    ensures a + b + c + d == a + (b + c + d)
  {
  }

  /**
   * The RGB manifest lies beside the samples, under `data/<dataset>/<purpose>/`,
   * while the Sentinel manifest is looked up under `../data/`: it is the RGB
   * manifest path behind a `../`, outside the samples' directory.
   */
  lemma ManifestDirectories(dataset: string, purpose: Purpose, descriptor: string)
    ensures IsPrefix(SampleDir(dataset, purpose), RgbManifestPath(dataset, purpose, descriptor))
    ensures !IsPrefix(SampleDir(dataset, purpose), SentinelManifestPath(dataset, purpose, descriptor))
    ensures SentinelManifestPath(dataset, purpose, descriptor) == "../" + RgbManifestPath(dataset, purpose, descriptor)
  {
    var dir, v := SampleDir(dataset, purpose), purpose.Value();
    assert RgbManifestPath(dataset, purpose, descriptor) == dir + descriptor;
    PrefixOfAppend(dir, descriptor);
    assert SentinelManifestPath(dataset, purpose, descriptor)[0] == '.' != dir[0];
    var x0 := "data/";
    assert "../data/" == "../" + x0;
    PrependAssoc("../", x0, dataset);
    PrependAssoc("../", x0 + dataset, "/");
    PrependAssoc("../", x0 + dataset + "/", v);
    PrependAssoc("../", x0 + dataset + "/" + v, "/");
    PrependAssoc("../", dir, descriptor);
  }

  lemma PrependAssoc(p: string, a: string, b: string)
    ensures p + (a + b) == (p + a) + b
  {
  }

  /**
   * VAL and PLOT share the value 'plot', so every path built for VAL is the
   * one built for PLOT; the other purposes keep their directories apart.
   */
  lemma PurposeDirectories(dataset: string, p: Purpose, q: Purpose)
    ensures SampleDir(dataset, p) == SampleDir(dataset, q) <==> p.Value() == q.Value()
    ensures forall id :: SatelliteImagePath(dataset, Val, id) == SatelliteImagePath(dataset, Plot, id)
    ensures forall id :: LandcoverMaskPath(dataset, Val, id) == LandcoverMaskPath(dataset, Plot, id)
    ensures forall id :: TargetImagePath(dataset, Val, id) == TargetImagePath(dataset, Plot, id)
    ensures forall id :: ConditionImagePath(dataset, Val, id) == ConditionImagePath(dataset, Plot, id)
    ensures forall d :: SentinelManifestPath(dataset, Val, d) == SentinelManifestPath(dataset, Plot, d)
    ensures forall d :: RgbManifestPath(dataset, Val, d) == RgbManifestPath(dataset, Plot, d)
  {
    if SampleDir(dataset, p) == SampleDir(dataset, q) {
      var u, v := p.Value() + "/", q.Value() + "/";
      assert SampleDir(dataset, p) == ("data/" + dataset + "/") + u;
      assert SampleDir(dataset, q) == ("data/" + dataset + "/") + v;
      PrefixCancel("data/" + dataset + "/", u, v);
      assert p.Value() == u[..|u| - 1];
      assert q.Value() == v[..|v| - 1];
    }
  }
}
