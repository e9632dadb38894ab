/**
 * Compositions of the selection operations: a crop per colour patch or per
 * connected island. Cropping a grid to the set cells of a selection
 * (`extract_selected_area`) is not part of this model and is passed in as
 * `crop`; where it gives None, that patch or island is dropped.
 */
module Compositions {
  import opened Wrappers
  import opened Arguments
  import opened Selection
  import Segmentation

  /** The three shapes of a composite result: None, one grid, or `Grids`. */
  datatype Extracted = Nothing | One(grid: Grid) | Many(grids: seq<Grid>)

  /** `return patches[0]` for one patch, `None` for none, `Grids(patches)` otherwise. */
  function Pack(ps: seq<Grid>): (r: Extracted)
    ensures r.Nothing? <==> |ps| == 0
    ensures r.One? <==> |ps| == 1
    ensures r.Many? ==> |ps| >= 2
  {
    if |ps| == 1 then One(ps[0])
    else if |ps| == 0 then Nothing
    else Many(ps)
  }

  /** The grids a composite result stands for. */
  function Unpack(r: Extracted): seq<Grid> {
    match r
    case Nothing => []
    case One(g) => [g]
    case Many(gs) => gs
  }

  /** Packing loses nothing: the grids can be read back in order. */
  lemma PackRoundTrip(ps: seq<Grid>)
    ensures Unpack(Pack(ps)) == ps
  {
    if |ps| == 1 {
      assert ps == [ps[0]];
    }
  }

  /** The defined values of `xs`, in order. */
  function Somes(xs: seq<Option<Grid>>): (r: seq<Grid>)
    ensures |r| <= |xs|
    ensures forall x :: x in r <==> Some(x) in xs
  {
    if xs == [] then []
    else
      var init := xs[..|xs| - 1];
      assert xs == init + [xs[|xs| - 1]];
      match xs[|xs| - 1]
      case Some(x) => Somes(init) + [x]
      case None => Somes(init)
  }

  lemma SomesAppend(xs: seq<Option<Grid>>, x: Option<Grid>)
    ensures Somes(xs + [x]) == Somes(xs) + (if x.Some? then [x.value] else [])
  {
    assert (xs + [x])[..|xs|] == xs;
  }

  /** `extract_color_patch`: the crop of the cells of one colour. */
  function ExtractColorPatch(g: Grid, color: int, crop: (Grid, Mask) -> Option<Grid>): (r: Option<Grid>)
    requires Rect(g)
    ensures r == crop(g, SelectColor(g, color))
  {
    crop(g, SelectColor(g, color))
  }

  /** The crop of each colour in `colors`. */
  function ColorCrops(g: Grid, colors: seq<int>, crop: (Grid, Mask) -> Option<Grid>): (r: seq<Option<Grid>>)
    requires Rect(g)
    ensures |r| == |colors| && forall k :: 0 <= k < |colors| ==> r[k] == ExtractColorPatch(g, colors[k], crop)
  {
    seq(|colors|, k requires 0 <= k < |colors| => ExtractColorPatch(g, colors[k], crop))
  }

  /**
   * `extract_color_patches`: one crop per used colour other than `ignore`,
   * in ascending colour order, dropping undefined crops.
   */
  method ExtractColorPatches(g: Grid, ignore: int, crop: (Grid, Mask) -> Option<Grid>)
    returns (r: Extracted, ghost patches: seq<Grid>)
    requires Rect(g)
    ensures patches == Somes(ColorCrops(g, Segmentation.PatchColors(UsedColors(g), ignore), crop))
    ensures r == Pack(patches)
  {
    var colors := UsedColors(g);
    var found: seq<Grid> := [];
    for i := 0 to |colors|
      invariant found == Somes(ColorCrops(g, Segmentation.PatchColors(colors[..i], ignore), crop))
    {
      var color := colors[i];
      PatchStep(g, colors, i, ignore, crop);
      if color != ignore {
        var patch := ExtractColorPatch(g, color, crop);
        if patch.Some? {
          found := found + [patch.value];
        }
      }
    }
    assert colors[..|colors|] == colors;
    patches := found;
    r := Pack(found);
  }

  lemma PatchStep(g: Grid, colors: seq<int>, i: int, ignore: int, crop: (Grid, Mask) -> Option<Grid>)
    requires Rect(g) && 0 <= i < |colors|
    ensures Somes(ColorCrops(g, Segmentation.PatchColors(colors[..i + 1], ignore), crop)) ==
      Somes(ColorCrops(g, Segmentation.PatchColors(colors[..i], ignore), crop)) +
      (if colors[i] != ignore && ExtractColorPatch(g, colors[i], crop).Some? then [ExtractColorPatch(g, colors[i], crop).value] else [])
  {
    var done := Segmentation.PatchColors(colors[..i], ignore);
    var next := Segmentation.PatchColors(colors[..i + 1], ignore);
    Segmentation.PatchColorsStep(colors, i, ignore);
    if colors[i] != ignore {
      assert next == done + [colors[i]];
      var patch := ExtractColorPatch(g, colors[i], crop);
      ColorCropsAppend(g, done, colors[i], crop);
      SomesAppend(ColorCrops(g, done, crop), patch);
    } else {
      assert next == done;
    }
  }

  lemma ColorCropsAppend(g: Grid, colors: seq<int>, c: int, crop: (Grid, Mask) -> Option<Grid>)
    requires Rect(g)
    ensures ColorCrops(g, colors + [c], crop) == ColorCrops(g, colors, crop) + [ExtractColorPatch(g, c, crop)]
  {
    var a, b := ColorCrops(g, colors + [c], crop), ColorCrops(g, colors, crop) + [ExtractColorPatch(g, c, crop)];
    forall k | 0 <= k < |a| ensures a[k] == b[k] {
      if k < |colors| {
        assert (colors + [c])[k] == colors[k];
      }
    }
  }

  /** A grid is among the patches exactly when it is the defined crop of a used colour other than `ignore`. */
  lemma PatchesOfColors(g: Grid, ignore: int, crop: (Grid, Mask) -> Option<Grid>, p: Grid)
    requires Rect(g)
    ensures p in Somes(ColorCrops(g, Segmentation.PatchColors(UsedColors(g), ignore), crop)) <==>
      exists c :: c in UsedColors(g) && c != ignore && crop(g, SelectColor(g, c)) == Some(p)
  {
    var cs := Segmentation.PatchColors(UsedColors(g), ignore);
    var crops := ColorCrops(g, cs, crop);
    if p in Somes(crops) {
      var k :| 0 <= k < |crops| && crops[k] == Some(p);
      assert cs[k] in cs;
    }
    if exists c :: c in UsedColors(g) && c != ignore && crop(g, SelectColor(g, c)) == Some(p) {
      var c :| c in UsedColors(g) && c != ignore && crop(g, SelectColor(g, c)) == Some(p);
      var k :| 0 <= k < |cs| && cs[k] == c;
      assert crops[k] == Some(p);
    }
  }

  /** The crop of each area. */
  function AreaCrops(g: Grid, areas: seq<Mask>, crop: (Grid, Mask) -> Option<Grid>): (r: seq<Option<Grid>>)
    ensures |r| == |areas| && forall k :: 0 <= k < |areas| ==> r[k] == crop(g, areas[k])
  {
    seq(|areas|, k requires 0 <= k < |areas| => crop(g, areas[k]))
  }

  /**
   * `extract_islands`: None when every cell has the ignored colour; otherwise
   * the non-ignored cells are split into 8-connected areas (or kept whole
   * when the split gives None) and each area is cropped. The ghost `areas`
   * are the selections that were cropped: the whole selection when it is
   * 8-connected, its connected components otherwise.
   */
  method ExtractIslands(g: Grid, ignore: int, crop: (Grid, Mask) -> Option<Grid>)
    returns (r: Extracted, ghost areas: seq<Mask>)
    requires Rect(g)
    ensures !AnySet(SelectAllColors(g, ignore)) ==> r == Nothing && areas == []
    ensures AnySet(SelectAllColors(g, ignore)) && Connected(SelectedCells(SelectAllColors(g, ignore)), Neighbors) ==>
      areas == [SelectAllColors(g, ignore)]
    ensures AnySet(SelectAllColors(g, ignore)) && !Connected(SelectedCells(SelectAllColors(g, ignore)), Neighbors) ==>
      |areas| >= 2 && Partition(SelectAllColors(g, ignore), areas) &&
      ClosedAreas(SelectAllColors(g, ignore), areas, Neighbors) && MasksConnected(areas, Neighbors)
    ensures AnySet(SelectAllColors(g, ignore)) ==> r == Pack(Somes(AreaCrops(g, areas, crop)))
  {
    var selection := SelectAllColors(g, ignore);
    if !AnySet(selection) {
      return Nothing, [];
    }
    ghost var i, j :| 0 <= i < |selection| && 0 <= j < |selection[i]| && selection[i][j];
    assert (i, j) in SelectedCells(selection);
    var split := SplitConnectedAreas(selection);
    var selections: seq<Mask>;
    if split.None? {
      selections := [selection];
    } else {
      selections := split.value;
    }
    var islands := CropAreas(g, selections, crop);
    areas := selections;
    r := Pack(islands);
  }

  /** `[crop(grid, s) for s in selections]`, keeping the crops that are not None. */
  method CropAreas(g: Grid, selections: seq<Mask>, crop: (Grid, Mask) -> Option<Grid>) returns (islands: seq<Grid>)
    ensures islands == Somes(AreaCrops(g, selections, crop))
  {
    islands := [];
    for i := 0 to |selections|
      invariant islands == Somes(AreaCrops(g, selections[..i], crop))
    {
      var island := crop(g, selections[i]);
      assert AreaCrops(g, selections[..i + 1], crop) == AreaCrops(g, selections[..i], crop) + [island];
      SomesAppend(AreaCrops(g, selections[..i], crop), island);
      if island.Some? {
        islands := islands + [island.value];
      }
    }
    assert selections[..|selections|] == selections;
  }
}
