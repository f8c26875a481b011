/** The SAROS label scheme: body-region and body-part label values, their
    display colours, and the label -> name tables the compositor looks labels up
    in. */
module Saros {
  import opened Wrappers
  import opened Raster
  import opened DicomUtils

  // ---------------------------------------------------------------------------
  // Dictionary comprehension over an enumeration
  // ---------------------------------------------------------------------------

  /** `{value(m): name(m) for m in ms if value(m) > 0}`, inserting in order. */
  function Comprehend<E>(ms: seq<E>, value: E -> int, name: E -> string): (d: map<int, string>)
    ensures forall k :: k in d ==> k > 0
  {
    if |ms| == 0 then map[]
    else
      var d := Comprehend(ms[..|ms| - 1], value, name);
      var m := ms[|ms| - 1];
      if value(m) > 0 then d[value(m) := name(m)] else d
  }

  /** The keys of the comprehension are exactly the positive values of the members. */
  lemma {:induction false} ComprehendKeys<E>(ms: seq<E>, value: E -> int, name: E -> string, k: int)
    ensures k in Comprehend(ms, value, name) <==> k > 0 && exists i :: 0 <= i < |ms| && value(ms[i]) == k
    decreases |ms|
  {
    if |ms| > 0 {
      var init := ms[..|ms| - 1];
      ComprehendKeys(init, value, name, k);
      if k in Comprehend(init, value, name) {
        var i :| 0 <= i < |init| && value(init[i]) == k;
        assert value(ms[i]) == k;
      }
      if k > 0 && exists i :: 0 <= i < |ms| && value(ms[i]) == k {
        var i :| 0 <= i < |ms| && value(ms[i]) == k;
        if i < |ms| - 1 {
          assert value(init[i]) == k;
        }
      }
    }
  }

  /** With distinct values, every member with a positive value is listed under its
      own name. */
  lemma {:induction false} ComprehendValue<E>(ms: seq<E>, value: E -> int, name: E -> string, i: int)
    requires 0 <= i < |ms| && value(ms[i]) > 0
    requires forall a, b :: 0 <= a < b < |ms| ==> value(ms[a]) != value(ms[b])
    ensures value(ms[i]) in Comprehend(ms, value, name)
    ensures Comprehend(ms, value, name)[value(ms[i])] == name(ms[i])
    decreases |ms|
  {
    if i < |ms| - 1 {
      var init := ms[..|ms| - 1];
      assert init[i] == ms[i];
      ComprehendValue(init, value, name, i);
      assert value(ms[i]) != value(ms[|ms| - 1]);
    }
  }

  // ---------------------------------------------------------------------------
  // Body regions
  // ---------------------------------------------------------------------------

  datatype BodyRegion =
    | RegionBackground
    | SubcutaneousTissue
    | Muscle
    | AbdominalCavity
    | ThoracicCavity
    | Bone
    | ParotidGlands
    | Pericardium
    | BreastImplant
    | Mediastinum
    | Brain
    | SpinalCord
    | ThyroidGlands
    | SubmandibularGlands

  /** The members in declaration order, as iterating the enumeration yields them. */
  const AllRegions: seq<BodyRegion> := [
    RegionBackground, SubcutaneousTissue, Muscle, AbdominalCavity, ThoracicCavity, Bone,
    ParotidGlands, Pericardium, BreastImplant, Mediastinum, Brain, SpinalCord,
    ThyroidGlands, SubmandibularGlands]

  function RegionValue(r: BodyRegion): (v: int)
    ensures 0 <= v <= 13
  {
    match r
    case RegionBackground => 0
    case SubcutaneousTissue => 1
    case Muscle => 2
    case AbdominalCavity => 3
    case ThoracicCavity => 4
    case Bone => 5
    case ParotidGlands => 6
    case Pericardium => 7
    case BreastImplant => 8
    case Mediastinum => 9
    case Brain => 10
    case SpinalCord => 11
    case ThyroidGlands => 12
    case SubmandibularGlands => 13
  }

  function RegionName(r: BodyRegion): string {
    match r
    case RegionBackground => "BACKGROUND"
    case SubcutaneousTissue => "SUBCUTANEOUS_TISSUE"
    case Muscle => "MUSCLE"
    case AbdominalCavity => "ABDOMINAL_CAVITY"
    case ThoracicCavity => "THORACIC_CAVITY"
    case Bone => "BONE"
    case ParotidGlands => "PAROTID_GLANDS"
    case Pericardium => "PERICARDIUM"
    case BreastImplant => "BREAST_IMPLANT"
    case Mediastinum => "MEDIASTINUM"
    case Brain => "BRAIN"
    case SpinalCord => "SPINAL_CORD"
    case ThyroidGlands => "THYROID_GLANDS"
    case SubmandibularGlands => "SUBMANDIBULAR_GLANDS"
  }

  /** `BodyRegions(v)`: the member with value v, if any (otherwise ValueError). */
  function RegionFromValue(v: int): (r: Option<BodyRegion>)
    ensures r.Some? <==> 0 <= v <= 13
    ensures r.Some? ==> RegionValue(r.value) == v
  {
    if v == 0 then Some(RegionBackground)
    else if v == 1 then Some(SubcutaneousTissue)
    else if v == 2 then Some(Muscle)
    else if v == 3 then Some(AbdominalCavity)
    else if v == 4 then Some(ThoracicCavity)
    else if v == 5 then Some(Bone)
    else if v == 6 then Some(ParotidGlands)
    else if v == 7 then Some(Pericardium)
    else if v == 8 then Some(BreastImplant)
    else if v == 9 then Some(Mediastinum)
    else if v == 10 then Some(Brain)
    else if v == 11 then Some(SpinalCord)
    else if v == 12 then Some(ThyroidGlands)
    else if v == 13 then Some(SubmandibularGlands)
    else None
  }

  /** Looking a member up by its value gives it back, so the values are distinct. */
  lemma RegionValueRoundTrip(r: BodyRegion)
    ensures RegionFromValue(RegionValue(r)) == Some(r)
  {
  }

  lemma RegionValuesDistinct(r1: BodyRegion, r2: BodyRegion)
    ensures RegionValue(r1) == RegionValue(r2) ==> r1 == r2
  {
    RegionValueRoundTrip(r1);
    RegionValueRoundTrip(r2);
  }

  /** The member at position i of the enumeration has value i. */
  lemma RegionAtPosition(i: int)
    requires 0 <= i < |AllRegions|
    ensures RegionValue(AllRegions[i]) == i
  {
    var r := RegionFromValue(i).value;
    assert AllRegions[RegionValue(r)] == r by {
      match r
      case RegionBackground =>
      case SubcutaneousTissue =>
      case Muscle =>
      case AbdominalCavity =>
      case ThoracicCavity =>
      case Bone =>
      case ParotidGlands =>
      case Pericardium =>
      case BreastImplant =>
      case Mediastinum =>
      case Brain =>
      case SpinalCord =>
      case ThyroidGlands =>
      case SubmandibularGlands =>
    }
  }

  const BodyRegionsColors: map<string, Color> := map[
    "SUBCUTANEOUS_TISSUE" := Color(255, 204, 153, 255),
    "MUSCLE" := Color(204, 0, 0, 255),
    "ABDOMINAL_CAVITY" := Color(102, 204, 102, 255),
    "THORACIC_CAVITY" := Color(51, 153, 255, 255),
    "BONE" := Color(192, 192, 192, 255),
    "PAROTID_GLANDS" := Color(255, 153, 204, 255),
    "PERICARDIUM" := Color(153, 0, 153, 255),
    "BREAST_IMPLANT" := Color(255, 255, 153, 255),
    "MEDIASTINUM" := Color(102, 51, 0, 255),
    "BRAIN" := Color(255, 102, 102, 255),
    "SPINAL_CORD" := Color(204, 204, 0, 255),
    "THYROID_GLANDS" := Color(0, 204, 204, 255),
    "SUBMANDIBULAR_GLANDS" := Color(153, 255, 153, 255)]

  /** `body_regions_dict`: label value -> member name, background left out. */
  const BodyRegionsDict: map<int, string> := Comprehend(AllRegions, RegionValue, RegionName)

  /** The region table has exactly the labels 1..13, each under its member's name. */
  lemma BodyRegionsDictContents(k: int)
    ensures k in BodyRegionsDict <==> 1 <= k <= 13
    ensures k in BodyRegionsDict ==> BodyRegionsDict[k] == RegionName(RegionFromValue(k).value)
  {
    ComprehendKeys(AllRegions, RegionValue, RegionName, k);
    if 1 <= k <= 13 {
      RegionAtPosition(k);
      forall a, b | 0 <= a < b < |AllRegions|
        ensures RegionValue(AllRegions[a]) != RegionValue(AllRegions[b])
      {
        RegionAtPosition(a);
        RegionAtPosition(b);
      }
      ComprehendValue(AllRegions, RegionValue, RegionName, k);
      RegionValuesDistinct(AllRegions[k], RegionFromValue(k).value);
    }
    if k in BodyRegionsDict {
      var i :| 0 <= i < |AllRegions| && RegionValue(AllRegions[i]) == k;
      RegionAtPosition(i);
    }
  }

  /** Every region other than the background has a colour, and every colour is an
      opaque well-formed RGBA value. */
  lemma RegionColorsComplete(r: BodyRegion)
    ensures r != RegionBackground ==> RegionName(r) in BodyRegionsColors
    ensures RegionName(r) in BodyRegionsColors ==>
      WellFormed(BodyRegionsColors[RegionName(r)]) && BodyRegionsColors[RegionName(r)].a == 255
  {
  }

  /** With the region tables, the compositor paints every region label in its
      colour and leaves the background and unknown labels transparent. */
  lemma RegionLabelsPainted(v: int)
    ensures 1 <= v <= 13 ==>
      OverlayPixel(v, BodyRegionsDict, BodyRegionsColors) == BodyRegionsColors[RegionName(RegionFromValue(v).value)]
    ensures 1 <= v <= 13 ==> OverlayPixel(v, BodyRegionsDict, BodyRegionsColors).a == 255
    ensures !(1 <= v <= 13) ==> OverlayPixel(v, BodyRegionsDict, BodyRegionsColors) == Transparent
  {
    BodyRegionsDictContents(v);
    if 1 <= v <= 13 {
      RegionColorsComplete(RegionFromValue(v).value);
    }
  }

  // ---------------------------------------------------------------------------
  // Body parts
  // ---------------------------------------------------------------------------

  datatype BodyPart = PartBackground | Torso | Head | RightLeg | LeftLeg | RightArm | LeftArm

  const AllParts: seq<BodyPart> := [PartBackground, Torso, Head, RightLeg, LeftLeg, RightArm, LeftArm]

  function PartValue(p: BodyPart): (v: int)
    ensures 0 <= v <= 6
  {
    match p
    case PartBackground => 0
    case Torso => 1
    case Head => 2
    case RightLeg => 3
    case LeftLeg => 4
    case RightArm => 5
    case LeftArm => 6
  }

  function PartName(p: BodyPart): string {
    match p
    case PartBackground => "BACKGROUND"
    case Torso => "TORSO"
    case Head => "HEAD"
    case RightLeg => "RIGHT_LEG"
    case LeftLeg => "LEFT_LEG"
    case RightArm => "RIGHT_ARM"
    case LeftArm => "LEFT_ARM"
  }

  /** `BodyParts(v)`: the member with value v, if any. */
  function PartFromValue(v: int): (p: Option<BodyPart>)
    ensures p.Some? <==> 0 <= v <= 6
    ensures p.Some? ==> PartValue(p.value) == v
  {
    if v == 0 then Some(PartBackground)
    else if v == 1 then Some(Torso)
    else if v == 2 then Some(Head)
    else if v == 3 then Some(RightLeg)
    else if v == 4 then Some(LeftLeg)
    else if v == 5 then Some(RightArm)
    else if v == 6 then Some(LeftArm)
    else None
  }

  lemma PartValueRoundTrip(p: BodyPart)
    ensures PartFromValue(PartValue(p)) == Some(p)
  {
  }

  lemma PartValuesDistinct(p1: BodyPart, p2: BodyPart)
    ensures PartValue(p1) == PartValue(p2) ==> p1 == p2
  {
    PartValueRoundTrip(p1);
    PartValueRoundTrip(p2);
  }

  lemma PartAtPosition(i: int)
    requires 0 <= i < |AllParts|
    ensures PartValue(AllParts[i]) == i
  {
    var p := PartFromValue(i).value;
    assert AllParts[PartValue(p)] == p by {
      match p
      case PartBackground =>
      case Torso =>
      case Head =>
      case RightLeg =>
      case LeftLeg =>
      case RightArm =>
      case LeftArm =>
    }
  }

  const BodyPartsColors: map<string, Color> := map[
    "TORSO" := Color(153, 102, 51, 255),
    "HEAD" := Color(255, 204, 153, 255),
    "RIGHT_LEG" := Color(51, 204, 51, 255),
    "LEFT_LEG" := Color(51, 153, 51, 255),
    "RIGHT_ARM" := Color(255, 153, 153, 255),
    "LEFT_ARM" := Color(204, 102, 102, 255)]

  /** `body_parts_dict`: label value -> member name, background left out. */
  const BodyPartsDict: map<int, string> := Comprehend(AllParts, PartValue, PartName)

  /** The part table has exactly the labels 1..6, each under its member's name. */
  lemma BodyPartsDictContents(k: int)
    ensures k in BodyPartsDict <==> 1 <= k <= 6
    ensures k in BodyPartsDict ==> BodyPartsDict[k] == PartName(PartFromValue(k).value)
  {
    ComprehendKeys(AllParts, PartValue, PartName, k);
    if 1 <= k <= 6 {
      PartAtPosition(k);
      forall a, b | 0 <= a < b < |AllParts|
        ensures PartValue(AllParts[a]) != PartValue(AllParts[b])
      {
        PartAtPosition(a);
        PartAtPosition(b);
      }
      ComprehendValue(AllParts, PartValue, PartName, k);
      PartValuesDistinct(AllParts[k], PartFromValue(k).value);
    }
    if k in BodyPartsDict {
      var i :| 0 <= i < |AllParts| && PartValue(AllParts[i]) == k;
      PartAtPosition(i);
    }
  }

  lemma PartColorsComplete(p: BodyPart)
    ensures p != PartBackground ==> PartName(p) in BodyPartsColors
    ensures PartName(p) in BodyPartsColors ==>
      WellFormed(BodyPartsColors[PartName(p)]) && BodyPartsColors[PartName(p)].a == 255
  {
  }

  lemma PartLabelsPainted(v: int)
    ensures 1 <= v <= 6 ==>
      OverlayPixel(v, BodyPartsDict, BodyPartsColors) == BodyPartsColors[PartName(PartFromValue(v).value)]
    ensures 1 <= v <= 6 ==> OverlayPixel(v, BodyPartsDict, BodyPartsColors).a == 255
    ensures !(1 <= v <= 6) ==> OverlayPixel(v, BodyPartsDict, BodyPartsColors) == Transparent
  {
    BodyPartsDictContents(v);
    if 1 <= v <= 6 {
      PartColorsComplete(PartFromValue(v).value);
    }
  }
}
