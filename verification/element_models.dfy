/** Elements (a window or door), their frame and winds (panels), and the
    per-position detail records that carry each profile piece's SKU, colour,
    cut length and end-cut angles. Constructors validate their inputs and
    report the first failing check; the setters and the cut-length
    computations are pure functions from the old value to the new one. */
module ElementModels {
  import opened Wrappers
  import opened ValidOptions

  /** One profile piece at one position of a frame or wind. Frame and wind
      pieces carry identical fields, so one type serves both. Cut lengths and
      angles are exact reals. */
  datatype Detail = Detail(
    position: string,
    profileSku: string,
    color: string,
    dimension: real,
    angleLeft: real,
    angleRight: real,
    reinforcedUsed: bool,
    reinforcedSku: string)

  /** The zero value of a detail record. */
  const ZeroDetail := Detail("", "", "", 0.0, 0.0, 0.0, false, "")

  /** A position-keyed detail map; `None` stands for a nil map. */
  type Details = Option<map<string, Detail>>

  datatype Frame = Frame(
    name: string,
    inverted: bool,
    geometry: string,
    width: int,
    height: int,
    cutType: string,
    details: Details)

  datatype Wind = Wind(
    id: string,
    name: string,
    kind: string,
    status: string,
    openingSide: string,
    openingDirection: string,
    width: int,
    height: int,
    cutType: string,
    details: Details)

  datatype Element = Element(
    id: string,
    width: int,
    height: int,
    material: string,
    elementType: string,
    structure: string,
    frame: Frame,
    winds: seq<Wind>)

  datatype ElementError =
    | NonPositiveSize(width: int, height: int)
    | EmptyWindName
    | InvalidKind(kind: string)
    | InvalidCutType(cutType: string)
    | InvalidMaterial(material: string)
    | InvalidElementType(elementType: string)
    | InvalidStructure(structure: string)
    | DuplicateWindName(name: string)
    | UnknownPosition(position: string)
    | EmptySku(position: string)

  const MainFrameName := "Marco Principal"

  /** A detail map with one blank record per listed position. */
  function BlankDetails(positions: seq<string>): map<string, Detail> {
    map p | p in positions :: ZeroDetail.(position := p)
  }

  /** The detail map holds exactly the given positions, each with a record
      whose only non-zero field is its position. */
  ghost predicate IsBlankDetails(m: map<string, Detail>, positions: seq<string>) {
    && (forall p :: p in m <==> p in positions)
    && (forall p :: p in m ==> m[p] == ZeroDetail.(position := p))
  }

  function NewFrame(width: int, height: int, geometry: string, cutType: string, positions: seq<string>,
                    defaultGeometry: string, defaultCutType: string): (r: Result<Frame, ElementError>)
    ensures r.Failure? <==> width <= 0 || height <= 0
    ensures r.Failure? ==> r.error == NonPositiveSize(width, height)
    ensures r.Success? ==>
      && r.value.width == width && r.value.height == height
      && r.value.geometry == (if geometry == "" then defaultGeometry else geometry)
      && r.value.cutType == (if cutType == "" then defaultCutType else cutType)
      && r.value.name == MainFrameName && !r.value.inverted
      && r.value.details.Some? && IsBlankDetails(r.value.details.value, positions)
  {
    if width <= 0 || height <= 0 then
      Failure(NonPositiveSize(width, height))
    else
      var g := if geometry == "" then defaultGeometry else geometry;
      var c := if cutType == "" then defaultCutType else cutType;
      Success(Frame(MainFrameName, false, g, width, height, c, Some(BlankDetails(positions))))
  }

  /** `id` is the identifier the program generates for a new wind. */
  function NewWind(id: string, name: string, kind: string, width: int, height: int, cutType: string,
                   status: string, positions: seq<string>,
                   validKinds: seq<string>, validCutTypes: seq<string>): (r: Result<Wind, ElementError>)
    ensures name == "" ==> r == Failure(EmptyWindName)
    ensures name != "" && (width <= 0 || height <= 0) ==> r == Failure(NonPositiveSize(width, height))
    ensures name != "" && width > 0 && height > 0 && kind !in validKinds ==> r == Failure(InvalidKind(kind))
    ensures name != "" && width > 0 && height > 0 && kind in validKinds && cutType !in validCutTypes ==>
      r == Failure(InvalidCutType(cutType))
    ensures r.Success? <==> name != "" && width > 0 && height > 0 && kind in validKinds && cutType in validCutTypes
    ensures r.Success? ==>
      && r.value.id == id && r.value.name == name && r.value.kind == kind && r.value.status == status
      && r.value.width == width && r.value.height == height && r.value.cutType == cutType
      && r.value.openingSide == "" && r.value.openingDirection == ""
      && r.value.details.Some? && IsBlankDetails(r.value.details.value, positions)
  {
    if name == "" then Failure(EmptyWindName)
    else if width <= 0 || height <= 0 then Failure(NonPositiveSize(width, height))
    else if !IsValidOption(kind, validKinds) then Failure(InvalidKind(kind))
    else if !IsValidOption(cutType, validCutTypes) then Failure(InvalidCutType(cutType))
    else Success(Wind(id, name, kind, status, "", "", width, height, cutType, Some(BlankDetails(positions))))
  }

  /** `id` is the identifier the program generates for a new element. The
      frame is built from the element's own size and the default geometry,
      cut type and positions. */
  function NewElement(id: string, width: int, height: int, material: string, elementType: string,
                      structure: string, defaultFrameGeometry: string, defaultFrameCutType: string,
                      defaultFramePositions: seq<string>, validMaterials: seq<string>,
                      validTypes: seq<string>, validStructures: seq<string>): (r: Result<Element, ElementError>)
    ensures width <= 0 || height <= 0 ==> r == Failure(NonPositiveSize(width, height))
    ensures width > 0 && height > 0 && material !in validMaterials ==> r == Failure(InvalidMaterial(material))
    ensures width > 0 && height > 0 && material in validMaterials && elementType !in validTypes ==>
      r == Failure(InvalidElementType(elementType))
    ensures (width > 0 && height > 0 && material in validMaterials && elementType in validTypes
             && structure !in validStructures) ==> r == Failure(InvalidStructure(structure))
    ensures r.Success? <==>
      width > 0 && height > 0 && material in validMaterials && elementType in validTypes && structure in validStructures
    ensures r.Success? ==>
      && r.value.id == id && r.value.width == width && r.value.height == height
      && r.value.material == material && r.value.elementType == elementType && r.value.structure == structure
      && r.value.winds == []
      && r.value.frame.width == width && r.value.frame.height == height
      && r.value.frame.geometry == defaultFrameGeometry && r.value.frame.cutType == defaultFrameCutType
      && r.value.frame.details.Some? && IsBlankDetails(r.value.frame.details.value, defaultFramePositions)
  {
    if width <= 0 || height <= 0 then Failure(NonPositiveSize(width, height))
    else if !IsValidOption(material, validMaterials) then Failure(InvalidMaterial(material))
    else if !IsValidOption(elementType, validTypes) then Failure(InvalidElementType(elementType))
    else if !IsValidOption(structure, validStructures) then Failure(InvalidStructure(structure))
    else
      // NewFrame cannot fail here: the size was checked above.
      var frame := NewFrame(width, height, defaultFrameGeometry, defaultFrameCutType, defaultFramePositions,
                            defaultFrameGeometry, defaultFrameCutType).value;
      Success(Element(id, width, height, material, elementType, structure, frame, []))
  }

  /** No two winds share a name. */
  ghost predicate DistinctWindNames(winds: seq<Wind>) {
    forall i, j :: 0 <= i < j < |winds| ==> winds[i].name != winds[j].name
  }

  function HasWindNamed(winds: seq<Wind>, name: string): (b: bool)
    ensures b <==> exists i :: 0 <= i < |winds| && winds[i].name == name
  {
    if |winds| == 0 then false
    else winds[0].name == name || HasWindNamed(winds[1..], name)
  }

  /** Appends a wind unless one of the same name is already there; a failed
      call leaves the element as it was. */
  function AddWind(e: Element, wind: Wind): (r: Result<Element, ElementError>)
    ensures r.Failure? <==> exists i :: 0 <= i < |e.winds| && e.winds[i].name == wind.name
    ensures r.Failure? ==> r.error == DuplicateWindName(wind.name)
    ensures r.Success? ==>
      && |r.value.winds| == |e.winds| + 1
      && r.value.winds[..|e.winds|] == e.winds
      && r.value.winds[|e.winds|] == wind
      && r.value.(winds := e.winds) == e
  {
    if HasWindNamed(e.winds, wind.name) then Failure(DuplicateWindName(wind.name))
    else Success(e.(winds := e.winds + [wind]))
  }

  /** Adding a wind through AddWind keeps wind names pairwise distinct. */
  lemma AddWindKeepsNamesDistinct(e: Element, wind: Wind)
    requires DistinctWindNames(e.winds)
    ensures AddWind(e, wind).Success? ==> DistinctWindNames(AddWind(e, wind).value.winds)
  {
    var r := AddWind(e, wind);
    if r.Success? {
      var ws := r.value.winds;
      forall i, j | 0 <= i < j < |ws|
        ensures ws[i].name != ws[j].name
      {
        if j == |e.winds| {
          assert ws[i] == e.winds[i];
        } else {
          assert ws[i] == e.winds[i] && ws[j] == e.winds[j];
        }
      }
    }
  }

  /** The map after a successful profile assignment at `position`: that
      position alone changes, and only in its SKU and colour. */
  ghost predicate AssignedAt(old_: map<string, Detail>, m: map<string, Detail>, position: string,
                             sku: string, color: string) {
    && m.Keys == old_.Keys
    && position in m
    && m[position] == old_[position].(profileSku := sku, color := color)
    && (forall p :: p in m && p != position ==> m[p] == old_[p])
  }

  /** The shared body of SetFrameProfile and SetWindProfile. A nil map holds
      no positions, so every position is unknown in it. */
  function AssignProfile(details: Details, position: string, sku: string, color: string): (r: Result<map<string, Detail>, ElementError>)
    ensures r.Failure? <==> details.None? || position !in details.value || sku == ""
    ensures details.Some? && position !in details.value ==> r == Failure(UnknownPosition(position))
    ensures details.None? ==> r == Failure(UnknownPosition(position))
    ensures details.Some? && position in details.value && sku == "" ==> r == Failure(EmptySku(position))
    ensures r.Success? ==> AssignedAt(details.value, r.value, position, sku, color)
  {
    match details
    case None => Failure(UnknownPosition(position))
    case Some(m) =>
      if position !in m then Failure(UnknownPosition(position))
      else if sku == "" then Failure(EmptySku(position))
      else Success(m[position := m[position].(profileSku := sku, color := color)])
  }

  /** Sets the SKU and colour at one frame position; on failure the frame is
      left as it was. */
  function SetFrameProfile(f: Frame, position: string, sku: string, color: string): (r: Result<Frame, ElementError>)
    ensures r.Failure? <==> f.details.None? || position !in f.details.value || sku == ""
    ensures r.Success? ==>
      && r.value.(details := f.details) == f
      && r.value.details.Some?
      && AssignedAt(f.details.value, r.value.details.value, position, sku, color)
  {
    match AssignProfile(f.details, position, sku, color)
    case Failure(e) => Failure(e)
    case Success(m) => Success(f.(details := Some(m)))
  }

  /** Sets the SKU and colour at one wind position; on failure the wind is
      left as it was. */
  function SetWindProfile(w: Wind, position: string, sku: string, color: string): (r: Result<Wind, ElementError>)
    ensures r.Failure? <==> w.details.None? || position !in w.details.value || sku == ""
    ensures r.Success? ==>
      && r.value.(details := w.details) == w
      && r.value.details.Some?
      && AssignedAt(w.details.value, r.value.details.value, position, sku, color)
  {
    match AssignProfile(w.details, position, sku, color)
    case Failure(e) => Failure(e)
    case Success(m) => Success(w.(details := Some(m)))
  }

  /** Go's `int(x)` on a float: truncation toward zero. */
  function Trunc(x: real): (n: int)
    ensures 0.0 <= x ==> 0 <= n && n as real <= x < n as real + 1.0
    ensures x < 0.0 ==> n <= 0 && n as real - 1.0 < x <= n as real
  {
    if x >= 0.0 then x.Floor else -((-x).Floor)
  }

  /** How the cut type of a frame or wind is recognised. */
  datatype CutRule = AngleCut | SquareCut | VerticalOverlapCut | UnknownCut

  /** Which side of the piece a position stands for. Left and right are
      tested first, so a position named both ways counts as vertical. */
  datatype Orientation = Vertical | Horizontal | Elsewhere

  function OrientationOf(pos: string, left: string, right: string, top: string, bottom: string): Orientation {
    if pos == left || pos == right then Vertical
    else if pos == top || pos == bottom then Horizontal
    else Elsewhere
  }

  /** The cut length and the two end-cut angles (equal on both ends) for one
      piece of a `height` x `width` frame or wind, with `discount` the
      truncated profile width. Unrecognised positions get length 0. */
  function CutOf(rule: CutRule, o: Orientation, height: int, width: int, discount: int): (int, real)
  {
    match rule
    case AngleCut =>
      var length := (match o
        case Vertical => height - discount
        case Horizontal => width - discount
        case Elsewhere => 0);
      (length, 45.0)
    case SquareCut =>
      var length := (match o
        case Vertical => height
        case Horizontal => width
        case Elsewhere => 0);
      (length, 90.0)
    case VerticalOverlapCut =>
      (match o
       case Vertical => (height, 90.0)
       case Horizontal => (width - discount, 45.0)
       case Elsewhere => (0, 0.0))
    case UnknownCut => (0, 0.0)
  }

  /** The detail record after cutting: length and angles set, reinforcement
      cleared, position, SKU and colour kept. */
  function CutDetail(d: Detail, cut: (int, real)): Detail {
    d.(dimension := cut.0 as real, angleLeft := cut.1, angleRight := cut.1,
       reinforcedUsed := false, reinforcedSku := "")
  }

  /** Recomputes every piece that has a SKU; pieces without a SKU are kept.
      A nil map becomes an empty one. */
  function CutAll(details: Details, rule: CutRule, height: int, width: int, discount: int,
                  left: string, right: string, top: string, bottom: string): (m: map<string, Detail>)
    ensures m.Keys == details.GetOr(map[]).Keys
    ensures forall p :: p in m && details.value[p].profileSku == "" ==> m[p] == details.value[p]
    ensures forall p :: p in m && details.value[p].profileSku != "" ==>
      m[p] == CutDetail(details.value[p], CutOf(rule, OrientationOf(p, left, right, top, bottom), height, width, discount))
  {
    var old_ := details.GetOr(map[]);
    map p | p in old_ ::
      if old_[p].profileSku == "" then old_[p]
      else CutDetail(old_[p], CutOf(rule, OrientationOf(p, left, right, top, bottom), height, width, discount))
  }

  function FrameCutRule(cutType: string, cutTypeAngle: string, cutTypeSquare: string): CutRule {
    if cutType == cutTypeAngle then AngleCut
    else if cutType == cutTypeSquare then SquareCut
    else UnknownCut
  }

  function WindCutRule(cutType: string, cutAngle: string, cutSquare: string, cutVerticalOverlap: string): CutRule {
    if cutType == cutAngle then AngleCut
    else if cutType == cutSquare then SquareCut
    else if cutType == cutVerticalOverlap then VerticalOverlapCut
    else UnknownCut
  }

  /** Cut lengths and angles of the frame pieces. With the angle cut,
      verticals are the height and horizontals the width, each less the
      truncated profile width, mitred at 45 degrees; with the square cut they
      are the plain height and width at 90 degrees; any other cut type gives
      length 0 and angles 0. */
  function CalculateFrameDetails(f: Frame, profileWidth: real, left: string, right: string, top: string,
                                 bottom: string, cutTypeAngle: string, cutTypeSquare: string): (r: Frame)
    ensures r.(details := f.details) == f
    ensures r.details.Some? && r.details.value.Keys == f.details.GetOr(map[]).Keys
    ensures forall p :: p in r.details.value ==>
      var d := f.details.value[p];
      var d' := r.details.value[p];
      if d.profileSku == "" then d' == d
      else
        && d'.(dimension := d.dimension, angleLeft := d.angleLeft, angleRight := d.angleRight,
               reinforcedUsed := d.reinforcedUsed, reinforcedSku := d.reinforcedSku) == d
        && !d'.reinforcedUsed && d'.reinforcedSku == ""
        && d'.angleLeft == d'.angleRight
        && (f.cutType == cutTypeAngle && (p == left || p == right) ==>
              d'.dimension == (f.height - Trunc(profileWidth)) as real && d'.angleLeft == 45.0)
        && (f.cutType == cutTypeAngle && p != left && p != right && (p == top || p == bottom) ==>
              d'.dimension == (f.width - Trunc(profileWidth)) as real && d'.angleLeft == 45.0)
        && (f.cutType != cutTypeAngle && f.cutType == cutTypeSquare && (p == left || p == right) ==>
              d'.dimension == f.height as real && d'.angleLeft == 90.0)
        && (f.cutType != cutTypeAngle && f.cutType == cutTypeSquare && p != left && p != right && (p == top || p == bottom) ==>
              d'.dimension == f.width as real && d'.angleLeft == 90.0)
        && (f.cutType != cutTypeAngle && f.cutType != cutTypeSquare ==>
              d'.dimension == 0.0 && d'.angleLeft == 0.0)
        && (p != left && p != right && p != top && p != bottom ==>
              && d'.dimension == 0.0
              && d'.angleLeft == (if f.cutType == cutTypeAngle then 45.0
                                  else if f.cutType == cutTypeSquare then 90.0 else 0.0))
  {
    var rule := FrameCutRule(f.cutType, cutTypeAngle, cutTypeSquare);
    f.(details := Some(CutAll(f.details, rule, f.height, f.width, Trunc(profileWidth), left, right, top, bottom)))
  }

  /** Cut lengths and angles of the wind pieces: the frame's rules plus the
      vertical-overlap cut, where verticals keep the full height at 90 degrees
      and horizontals lose the truncated profile width at 45 degrees. */
  function CalculateWindDetails(w: Wind, profileWidth: real, left: string, right: string, top: string,
                                bottom: string, cutAngle: string, cutSquare: string,
                                cutVerticalOverlap: string): (r: Wind)
    ensures r.(details := w.details) == w
    ensures r.details.Some? && r.details.value.Keys == w.details.GetOr(map[]).Keys
    ensures forall p :: p in r.details.value ==>
      var d := w.details.value[p];
      var d' := r.details.value[p];
      if d.profileSku == "" then d' == d
      else
        && d'.(dimension := d.dimension, angleLeft := d.angleLeft, angleRight := d.angleRight,
               reinforcedUsed := d.reinforcedUsed, reinforcedSku := d.reinforcedSku) == d
        && !d'.reinforcedUsed && d'.reinforcedSku == ""
        && d'.angleLeft == d'.angleRight
        && (w.cutType == cutAngle && (p == left || p == right) ==>
              d'.dimension == (w.height - Trunc(profileWidth)) as real && d'.angleLeft == 45.0)
        && (w.cutType == cutAngle && p != left && p != right && (p == top || p == bottom) ==>
              d'.dimension == (w.width - Trunc(profileWidth)) as real && d'.angleLeft == 45.0)
        && (w.cutType != cutAngle && w.cutType == cutSquare && (p == left || p == right) ==>
              d'.dimension == w.height as real && d'.angleLeft == 90.0)
        && (w.cutType != cutAngle && w.cutType == cutSquare && p != left && p != right && (p == top || p == bottom) ==>
              d'.dimension == w.width as real && d'.angleLeft == 90.0)
        && (w.cutType != cutAngle && w.cutType != cutSquare && w.cutType == cutVerticalOverlap && (p == left || p == right) ==>
              d'.dimension == w.height as real && d'.angleLeft == 90.0)
        && (w.cutType != cutAngle && w.cutType != cutSquare && w.cutType == cutVerticalOverlap
            && p != left && p != right && (p == top || p == bottom) ==>
              d'.dimension == (w.width - Trunc(profileWidth)) as real && d'.angleLeft == 45.0)
        && (w.cutType != cutAngle && w.cutType != cutSquare && w.cutType != cutVerticalOverlap ==>
              d'.dimension == 0.0 && d'.angleLeft == 0.0)
        && (p != left && p != right && p != top && p != bottom ==>
              && d'.dimension == 0.0
              && d'.angleLeft == (if w.cutType == cutAngle then 45.0
                                  else if w.cutType == cutSquare then 90.0 else 0.0))
  {
    var rule := WindCutRule(w.cutType, cutAngle, cutSquare, cutVerticalOverlap);
    w.(details := Some(CutAll(w.details, rule, w.height, w.width, Trunc(profileWidth), left, right, top, bottom)))
  }

  /** Recomputing the frame's cut lengths a second time changes nothing:
      every computed value depends only on the frame's size, cut type and
      the piece's SKU, none of which the computation alters. */
  lemma {:induction false} CalculateFrameDetailsIdempotent(f: Frame, profileWidth: real, left: string, right: string,
                                                           top: string, bottom: string, cutTypeAngle: string,
                                                           cutTypeSquare: string)
    ensures
      var once := CalculateFrameDetails(f, profileWidth, left, right, top, bottom, cutTypeAngle, cutTypeSquare);
      CalculateFrameDetails(once, profileWidth, left, right, top, bottom, cutTypeAngle, cutTypeSquare) == once
  {
    var once := CalculateFrameDetails(f, profileWidth, left, right, top, bottom, cutTypeAngle, cutTypeSquare);
    var twice := CalculateFrameDetails(once, profileWidth, left, right, top, bottom, cutTypeAngle, cutTypeSquare);
    var m1 := once.details.value;
    var m2 := twice.details.value;
    assert m2.Keys == m1.Keys;
    forall p | p in m1
      ensures m2[p] == m1[p]
    {
    }
    assert m2 == m1;
  }

  /** Recomputing a wind's cut lengths a second time changes nothing. */
  lemma {:induction false} CalculateWindDetailsIdempotent(w: Wind, profileWidth: real, left: string, right: string,
                                                          top: string, bottom: string, cutAngle: string,
                                                          cutSquare: string, cutVerticalOverlap: string)
    ensures
      var once := CalculateWindDetails(w, profileWidth, left, right, top, bottom, cutAngle, cutSquare, cutVerticalOverlap);
      CalculateWindDetails(once, profileWidth, left, right, top, bottom, cutAngle, cutSquare, cutVerticalOverlap) == once
  {
    var once := CalculateWindDetails(w, profileWidth, left, right, top, bottom, cutAngle, cutSquare, cutVerticalOverlap);
    var twice := CalculateWindDetails(once, profileWidth, left, right, top, bottom, cutAngle, cutSquare, cutVerticalOverlap);
    var m1 := once.details.value;
    var m2 := twice.details.value;
    assert m2.Keys == m1.Keys;
    forall p | p in m1
      ensures m2[p] == m1[p]
    {
    }
    assert m2 == m1;
  }
}
