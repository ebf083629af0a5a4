/** Finished sizes of the panels (winds) of a sliding window. From the
    element's outer size, the engagement depth (H2) of the frame profiles
    and the system's overlap margins, every sliding panel gets one height
    and one width; the jamb pieces of each panel are written with the
    height and the rails with the width, all with square (90 degree) ends.
    The frame is left for a later stage and casement systems are not sized. */
module WindowCalculation {
  import opened Wrappers
  import opened Constants
  import opened CatalogModels
  import opened ElementModels
  import opened ProfileSelector

  /** The profile chosen for each role, as the selector reports them. */
  type Profiles = map<string, SelectedProfileInfo>

  /** Why the sliding panels could not be sized. */
  datatype SlidingError =
    | MissingRole(role: string)
    | NonPositiveWindHeight(windHeight: real)
    | NonPositiveGapWidth(gapWidth: real)
    | NonPositiveWindWidth(windWidth: real)

  /** Why a calculation stopped. */
  datatype CalcError =
    | NonPositiveElementSize(height: int, width: int)
    | NoProfiles
    | Sliding(cause: SlidingError)

  /** The element after the calculation, and the error that stopped it.
      Map initialisation happens before the sliding step, so an element
      that failed there still comes back with its maps initialised. */
  datatype CalcOutcome = CalcOutcome(element: Element, error: Option<CalcError>)

  /** The sizes every sliding panel shares. */
  datatype SlidingSizes = SlidingSizes(windHeight: real, windWidth: real, activeWinds: nat)

  /** The engagement depth of the profile chosen for a role; a profile
      without one contributes nothing. */
  function H2Of(profiles: Profiles, role: string): real
    requires role in profiles
  {
    profiles[role].profile.h2.GetOr(0.0)
  }

  /** The number of sliding (movable) panels. Fixed panes and casement
      panels are not counted. */
  function ActiveWinds(winds: seq<Wind>): (n: nat)
    ensures n <= |winds|
    ensures n == 0 <==> forall i :: 0 <= i < |winds| ==> winds[i].kind != KindSlidingWind
  {
    if |winds| == 0 then 0
    else (if winds[0].kind == KindSlidingWind then 1 else 0) + ActiveWinds(winds[1..])
  }

  /** Counting panels distributes over concatenation. */
  lemma {:induction false} ActiveWindsAppend(a: seq<Wind>, b: seq<Wind>)
    ensures ActiveWinds(a + b) == ActiveWinds(a) + ActiveWinds(b)
  {
    if |a| == 0 {
      assert a + b == b;
    } else {
      assert (a + b)[0] == a[0];
      assert (a + b)[1..] == a[1..] + b;
      ActiveWindsAppend(a[1..], b);
    }
  }

  /** Only the panels' kinds matter to the count. */
  lemma {:induction false} ActiveWindsSameKinds(a: seq<Wind>, b: seq<Wind>)
    requires |a| == |b| && forall i :: 0 <= i < |a| ==> a[i].kind == b[i].kind
    ensures ActiveWinds(a) == ActiveWinds(b)
  {
    if |a| > 0 {
      ActiveWindsSameKinds(a[1..], b[1..]);
    }
  }

  /** The visible width of the meeting stile: only when panels meet and a
      meeting profile was chosen; a missing face width counts as zero. */
  function MeetingOverlap(profiles: Profiles, n: nat): real {
    if n > 1 && RoleWindJambMeetingSliding in profiles
    then profiles[RoleWindJambMeetingSliding].profile.h.GetOr(0.0)
    else 0.0
  }

  /** The width of each of `n` equal panels spanning a clear width `gap`,
      overlapping each other by `meet` at each of the `n - 1` meetings and
      the frame by `side` at both ends. */
  function PanelWidth(gap: real, n: nat, meet: real, side: real): (w: real)
    requires n > 0
    ensures n as real * w - (n - 1) as real * meet - 2.0 * side == gap
  {
    var total := gap + (n - 1) as real * meet + 2.0 * side;
    assert n as real * (total / n as real) == total;
    total / n as real
  }

  /** The panel height the frame leaves: the element height less the top
      and bottom frame engagement and the system's top and bottom overlaps. */
  function WindHeight(el: Element, system: ProfileSystem, profiles: Profiles): real
    requires RoleFrameTopSliding in profiles && RoleFrameBottomSliding in profiles
  {
    el.height as real - H2Of(profiles, RoleFrameTopSliding) - system.topOverlapMm
      - system.bottomOverlapMm - H2Of(profiles, RoleFrameBottomSliding)
  }

  /** The clear width between the two frame sides, which share one profile. */
  function GapWidth(el: Element, profiles: Profiles): real
    requires RoleFrameSideSliding in profiles
  {
    el.width as real - H2Of(profiles, RoleFrameSideSliding) - H2Of(profiles, RoleFrameSideSliding)
  }

  /** The panel sizes, with the checks in the order they are made: frame
      top and bottom profiles present, a positive panel height, a frame
      side profile present, a positive clear width between the side
      profiles; no sliding panel means nothing to size; finally a positive
      panel width. The height stack adds up to the element height, and the
      panels, overlapping each other at every meeting and the frame at both
      ends, exactly span the clear width. */
  function SlidingSizing(el: Element, system: ProfileSystem, profiles: Profiles): (r: Result<Option<SlidingSizes>, SlidingError>)
    ensures RoleFrameTopSliding !in profiles ==> r == Failure(MissingRole(RoleFrameTopSliding))
    ensures RoleFrameTopSliding in profiles && RoleFrameBottomSliding !in profiles ==>
      r == Failure(MissingRole(RoleFrameBottomSliding))
    ensures RoleFrameTopSliding in profiles && RoleFrameBottomSliding in profiles
            && WindHeight(el, system, profiles) <= 0.0 ==>
      r == Failure(NonPositiveWindHeight(WindHeight(el, system, profiles)))
    ensures RoleFrameTopSliding in profiles && RoleFrameBottomSliding in profiles
            && WindHeight(el, system, profiles) > 0.0 && RoleFrameSideSliding !in profiles ==>
      r == Failure(MissingRole(RoleFrameSideSliding))
    ensures RoleFrameTopSliding in profiles && RoleFrameBottomSliding in profiles && RoleFrameSideSliding in profiles
            && WindHeight(el, system, profiles) > 0.0 && GapWidth(el, profiles) <= 0.0 ==>
      r == Failure(NonPositiveGapWidth(GapWidth(el, profiles)))
    ensures RoleFrameTopSliding in profiles && RoleFrameBottomSliding in profiles && RoleFrameSideSliding in profiles
            && WindHeight(el, system, profiles) > 0.0 && GapWidth(el, profiles) > 0.0 && ActiveWinds(el.winds) == 0 ==>
      r == Success(None)
    ensures r.Failure? && r.error.MissingRole? ==>
      r.error.role in {RoleFrameTopSliding, RoleFrameBottomSliding, RoleFrameSideSliding} && r.error.role !in profiles
    ensures r.Success? ==>
      && RoleFrameTopSliding in profiles && RoleFrameBottomSliding in profiles && RoleFrameSideSliding in profiles
      && WindHeight(el, system, profiles) > 0.0 && GapWidth(el, profiles) > 0.0
      && (r.value.None? <==> ActiveWinds(el.winds) == 0)
    ensures r.Success? && r.value.Some? ==>
      var s := r.value.value;
      var n := s.activeWinds as real;
      && s.activeWinds == ActiveWinds(el.winds) && s.activeWinds > 0
      && s.windHeight > 0.0 && s.windWidth > 0.0
      && s.windHeight + H2Of(profiles, RoleFrameTopSliding) + H2Of(profiles, RoleFrameBottomSliding)
           + system.topOverlapMm + system.bottomOverlapMm == el.height as real
      && n * s.windWidth - (s.activeWinds - 1) as real * MeetingOverlap(profiles, s.activeWinds) - 2.0 * system.sideOverlapMm
           == GapWidth(el, profiles)
    ensures r.Failure? && r.error.NonPositiveWindHeight? ==>
      && RoleFrameTopSliding in profiles && RoleFrameBottomSliding in profiles
      && r.error.windHeight <= 0.0
      && r.error.windHeight + H2Of(profiles, RoleFrameTopSliding) + H2Of(profiles, RoleFrameBottomSliding)
           + system.topOverlapMm + system.bottomOverlapMm == el.height as real
    ensures r.Failure? && r.error.NonPositiveGapWidth? ==>
      && RoleFrameSideSliding in profiles
      && r.error.gapWidth <= 0.0 && r.error.gapWidth == GapWidth(el, profiles)
    ensures r.Failure? && r.error.NonPositiveWindWidth? ==>
      var n := ActiveWinds(el.winds) as real;
      && RoleFrameSideSliding in profiles && n > 0.0
      && r.error.windWidth <= 0.0
      && n * r.error.windWidth - (ActiveWinds(el.winds) - 1) as real * MeetingOverlap(profiles, ActiveWinds(el.winds)) - 2.0 * system.sideOverlapMm
           == GapWidth(el, profiles)
  {
    if RoleFrameTopSliding !in profiles then Failure(MissingRole(RoleFrameTopSliding))
    else if RoleFrameBottomSliding !in profiles then Failure(MissingRole(RoleFrameBottomSliding))
    else
      var height := WindHeight(el, system, profiles);
      if height <= 0.0 then Failure(NonPositiveWindHeight(height))
      else WidthSizing(el, system, profiles, height)
  }

  /** The steps after a positive panel height: the frame side profile must
      be present, the clear width positive, and, when there are sliding
      panels, their common width positive. */
  function WidthSizing(el: Element, system: ProfileSystem, profiles: Profiles, height: real)
    : (r: Result<Option<SlidingSizes>, SlidingError>)
    requires height > 0.0
    ensures RoleFrameSideSliding !in profiles ==> r == Failure(MissingRole(RoleFrameSideSliding))
    ensures RoleFrameSideSliding in profiles && GapWidth(el, profiles) <= 0.0 ==>
      r == Failure(NonPositiveGapWidth(GapWidth(el, profiles)))
    ensures RoleFrameSideSliding in profiles && GapWidth(el, profiles) > 0.0 && ActiveWinds(el.winds) == 0 ==>
      r == Success(None)
    ensures r.Failure? ==> !r.error.NonPositiveWindHeight?
    ensures r.Failure? && r.error.MissingRole? ==> r.error.role == RoleFrameSideSliding
    ensures r.Success? ==>
      && RoleFrameSideSliding in profiles && GapWidth(el, profiles) > 0.0
      && (r.value.None? <==> ActiveWinds(el.winds) == 0)
    ensures r.Success? && r.value.Some? ==>
      var s := r.value.value;
      && s.activeWinds == ActiveWinds(el.winds) && s.activeWinds > 0
      && s.windHeight == height && s.windWidth > 0.0
      && s.activeWinds as real * s.windWidth - (s.activeWinds - 1) as real * MeetingOverlap(profiles, s.activeWinds)
           - 2.0 * system.sideOverlapMm == GapWidth(el, profiles)
    ensures r.Failure? && r.error.NonPositiveWindWidth? ==>
      var n := ActiveWinds(el.winds);
      && RoleFrameSideSliding in profiles && n > 0
      && r.error.windWidth <= 0.0
      && n as real * r.error.windWidth - (n - 1) as real * MeetingOverlap(profiles, n) - 2.0 * system.sideOverlapMm
           == GapWidth(el, profiles)
  {
    if RoleFrameSideSliding !in profiles then Failure(MissingRole(RoleFrameSideSliding))
    else
      var gap := GapWidth(el, profiles);
      if gap <= 0.0 then Failure(NonPositiveGapWidth(gap))
      else
        var n := ActiveWinds(el.winds);
        if n == 0 then Success(None)
        else
          var width := PanelWidth(gap, n, MeetingOverlap(profiles, n), system.sideOverlapMm);
          if width <= 0.0 then Failure(NonPositiveWindWidth(width))
          else Success(Some(SlidingSizes(height, width, n)))
  }

  /** Sizing reads the element's outer size and its panels' kinds only,
      so initialising or rewriting detail maps does not change it. */
  lemma SlidingSizingReadsKindsOnly(a: Element, b: Element, system: ProfileSystem, profiles: Profiles)
    requires a.height == b.height && a.width == b.width && |a.winds| == |b.winds|
    requires forall i :: 0 <= i < |a.winds| ==> a.winds[i].kind == b.winds[i].kind
    ensures SlidingSizing(a, system, profiles) == SlidingSizing(b, system, profiles)
  {
    ActiveWindsSameKinds(a.winds, b.winds);
  }

  /** The SKU of the left jamb of the panel at position `i` of the element's
      panel list: the side jamb by default, the meeting jamb when panels meet
      and `i` is not the first position. */
  function LeftSku(profiles: Profiles, n: nat, i: int): string {
    if n > 1 && i > 0 && RoleWindJambMeetingSliding in profiles then profiles[RoleWindJambMeetingSliding].profile.sku
    else if RoleWindJambSideSliding in profiles then profiles[RoleWindJambSideSliding].profile.sku
    else ""
  }

  /** The right-hand counterpart of `LeftSku`: the meeting jamb when panels
      meet and `i` is before the last active position. */
  function RightSku(profiles: Profiles, n: nat, i: int): string {
    if n > 1 && i < n - 1 && RoleWindJambMeetingSliding in profiles then profiles[RoleWindJambMeetingSliding].profile.sku
    else if RoleWindJambSideSliding in profiles then profiles[RoleWindJambSideSliding].profile.sku
    else ""
  }

  /** The detail stored at `pos`, or the zero record a missing key reads as. */
  function DetailAt(m: map<string, Detail>, pos: string): Detail {
    if pos in m then m[pos] else ZeroDetail
  }

  /** A detail turned into a finished piece: the SKU, the length and square
      ends are set; position, colour and reinforcement are kept. */
  function SquarePiece(d: Detail, sku: string, dim: real): (r: Detail)
    ensures r.profileSku == sku && r.dimension == dim && r.angleLeft == 90.0 && r.angleRight == 90.0
    ensures r.position == d.position && r.color == d.color
    ensures r.reinforcedUsed == d.reinforcedUsed && r.reinforcedSku == d.reinforcedSku
  {
    d.(profileSku := sku, dimension := dim, angleLeft := 90.0, angleRight := 90.0)
  }

  /** Writes one finished piece at `pos`; a missing key reads as the zero
      record first. Every other detail is kept. */
  function WriteDetail(m: map<string, Detail>, pos: string, sku: string, dim: real): (r: map<string, Detail>)
    ensures r.Keys == m.Keys + {pos}
    ensures forall k :: k in m && k != pos ==> r[k] == m[k]
    ensures r[pos] == SquarePiece(DetailAt(m, pos), sku, dim)
  {
    m[pos := SquarePiece(DetailAt(m, pos), sku, dim)]
  }

  /** Which pieces of the panel at position `i` get written, and with what
      SKU and length: the jambs when a jamb SKU is known, the rails when a
      rail profile was chosen. */
  function PlannedPiece(pos: string, i: int, profiles: Profiles, sizes: SlidingSizes): Option<(string, real)> {
    var n := sizes.activeWinds;
    if pos == PositionLeft then
      (if LeftSku(profiles, n, i) != "" then Some((LeftSku(profiles, n, i), sizes.windHeight)) else None)
    else if pos == PositionRight then
      (if RightSku(profiles, n, i) != "" then Some((RightSku(profiles, n, i), sizes.windHeight)) else None)
    else if pos == PositionTop then
      (if RoleWindRailTopSliding in profiles
       then Some((profiles[RoleWindRailTopSliding].profile.sku, sizes.windWidth)) else None)
    else if pos == PositionBottom then
      (if RoleWindRailBottomSliding in profiles
       then Some((profiles[RoleWindRailBottomSliding].profile.sku, sizes.windWidth)) else None)
    else None
  }

  /** The four writes, left and right jamb, top and bottom rail, in that
      order. */
  function WriteJambsAndRails(m: map<string, Detail>, i: int, profiles: Profiles, sizes: SlidingSizes): map<string, Detail> {
    var n := sizes.activeWinds;
    var left := LeftSku(profiles, n, i);
    var right := RightSku(profiles, n, i);
    var m1 := if left != "" then WriteDetail(m, PositionLeft, left, sizes.windHeight) else m;
    var m2 := if right != "" then WriteDetail(m1, PositionRight, right, sizes.windHeight) else m1;
    var m3 := if RoleWindRailTopSliding in profiles
      then WriteDetail(m2, PositionTop, profiles[RoleWindRailTopSliding].profile.sku, sizes.windWidth) else m2;
    if RoleWindRailBottomSliding in profiles
    then WriteDetail(m3, PositionBottom, profiles[RoleWindRailBottomSliding].profile.sku, sizes.windWidth)
    else m3
  }

  /** A key that is not a planned piece keeps its detail. */
  lemma WritesKeepUnplanned(m: map<string, Detail>, i: int, profiles: Profiles, sizes: SlidingSizes, k: string)
    requires PlannedPiece(k, i, profiles, sizes).None?
    ensures var r := WriteJambsAndRails(m, i, profiles, sizes);
      (k in r <==> k in m) && (k in m ==> r[k] == m[k])
  {
  }

  /** A planned piece is written as a finished piece over the detail that
      was there before. */
  lemma WritesPlanned(m: map<string, Detail>, i: int, profiles: Profiles, sizes: SlidingSizes, k: string)
    requires PlannedPiece(k, i, profiles, sizes).Some?
    ensures var r := WriteJambsAndRails(m, i, profiles, sizes);
      var (sku, dim) := PlannedPiece(k, i, profiles, sizes).value;
      k in r && r[k] == SquarePiece(DetailAt(m, k), sku, dim)
  {
  }

  /** The detail map of the panel at position `i` after sizing: the planned
      pieces are written as finished pieces, every other detail is kept. */
  function SizedDetails(m: map<string, Detail>, i: int, profiles: Profiles, sizes: SlidingSizes): (r: map<string, Detail>)
    ensures forall k :: k in r <==> k in m || PlannedPiece(k, i, profiles, sizes).Some?
    ensures forall k :: k in r && PlannedPiece(k, i, profiles, sizes).None? ==> r[k] == m[k]
    ensures forall k :: k in r && PlannedPiece(k, i, profiles, sizes).Some? ==>
      var (sku, dim) := PlannedPiece(k, i, profiles, sizes).value;
      r[k] == SquarePiece(DetailAt(m, k), sku, dim)
  {
    var r := WriteJambsAndRails(m, i, profiles, sizes);
    forall k ensures k in r <==> k in m || PlannedPiece(k, i, profiles, sizes).Some? {
      if PlannedPiece(k, i, profiles, sizes).Some? {
        WritesPlanned(m, i, profiles, sizes, k);
      } else {
        WritesKeepUnplanned(m, i, profiles, sizes, k);
      }
    }
    forall k | k in r && PlannedPiece(k, i, profiles, sizes).None? ensures r[k] == m[k] {
      WritesKeepUnplanned(m, i, profiles, sizes, k);
    }
    forall k | k in r && PlannedPiece(k, i, profiles, sizes).Some?
      ensures var (sku, dim) := PlannedPiece(k, i, profiles, sizes).value;
        r[k] == SquarePiece(DetailAt(m, k), sku, dim)
    {
      WritesPlanned(m, i, profiles, sizes, k);
    }
    r
  }

  /** Sizing a panel's details twice is sizing them once. */
  lemma SizedDetailsIdempotent(m: map<string, Detail>, i: int, profiles: Profiles, sizes: SlidingSizes)
    ensures SizedDetails(SizedDetails(m, i, profiles, sizes), i, profiles, sizes) == SizedDetails(m, i, profiles, sizes)
  {
    var once := SizedDetails(m, i, profiles, sizes);
    var twice := SizedDetails(once, i, profiles, sizes);
    assert twice.Keys == once.Keys;
    forall k | k in once
      ensures twice[k] == once[k]
    {
      if PlannedPiece(k, i, profiles, sizes).Some? {
        assert DetailAt(once, k) == once[k];
      }
    }
  }

  /** One panel at position `i`: only sliding panels are sized, and only
      their detail map changes. */
  function SizeWind(w: Wind, i: int, profiles: Profiles, sizes: SlidingSizes): (r: Wind)
    ensures r.(details := w.details) == w
    ensures w.kind != KindSlidingWind ==> r == w
    ensures w.kind == KindSlidingWind ==> r.details == Some(SizedDetails(InitMap(w.details), i, profiles, sizes))
  {
    if w.kind != KindSlidingWind then w
    else w.(details := Some(SizedDetails(InitMap(w.details), i, profiles, sizes)))
  }

  /** Every panel, each with its raw position in the element's panel list. */
  function SizeWinds(winds: seq<Wind>, profiles: Profiles, sizes: SlidingSizes): (r: seq<Wind>)
    ensures |r| == |winds|
  {
    seq(|winds|, i requires 0 <= i < |winds| => SizeWind(winds[i], i, profiles, sizes))
  }

  /** A nil detail map becomes an empty one. */
  function InitMap(d: Details): map<string, Detail> {
    d.GetOr(map[])
  }

  /** The frame and every panel get a (possibly empty) detail map. */
  function InitDetails(el: Element): (r: Element)
    ensures r.frame == el.frame.(details := Some(InitMap(el.frame.details)))
    ensures |r.winds| == |el.winds|
    ensures forall i :: 0 <= i < |el.winds| ==> r.winds[i] == el.winds[i].(details := Some(InitMap(el.winds[i].details)))
    ensures r.(frame := el.frame, winds := el.winds) == el
  {
    el.(frame := el.frame.(details := Some(InitMap(el.frame.details))),
        winds := seq(|el.winds|, i requires 0 <= i < |el.winds| => el.winds[i].(details := Some(InitMap(el.winds[i].details)))))
  }

  /** The detail calculation: the element must have a positive size and at
      least one profile must be chosen, or it is returned unchanged with
      the error. Otherwise the maps are initialised and, for a sliding
      system, the panels are sized; a sizing failure comes back with the
      initialised element. Other systems are only initialised. */
  function CalculateDetails(el: Element, system: ProfileSystem, profiles: Profiles): (r: CalcOutcome)
    ensures el.height <= 0 || el.width <= 0 ==> r == CalcOutcome(el, Some(NonPositiveElementSize(el.height, el.width)))
    ensures el.height > 0 && el.width > 0 && |profiles| == 0 ==> r == CalcOutcome(el, Some(NoProfiles))
    ensures el.height > 0 && el.width > 0 && |profiles| > 0 ==>
      && r.element.(winds := el.winds) == InitDetails(el).(winds := el.winds)
      && |r.element.winds| == |el.winds|
      && (system.systemType != TypeSliding ==> r == CalcOutcome(InitDetails(el), None))
      && (system.systemType == TypeSliding ==>
            match SlidingSizing(el, system, profiles)
            case Failure(e) => r == CalcOutcome(InitDetails(el), Some(Sliding(e)))
            case Success(None) => r == CalcOutcome(InitDetails(el), None)
            case Success(Some(sizes)) =>
              && r.error.None?
              && forall i :: 0 <= i < |el.winds| ==>
                   r.element.winds[i] == SizeWind(InitDetails(el).winds[i], i, profiles, sizes))
  {
    if el.height <= 0 || el.width <= 0 then CalcOutcome(el, Some(NonPositiveElementSize(el.height, el.width)))
    else if |profiles| == 0 then CalcOutcome(el, Some(NoProfiles))
    else
      var ready := InitDetails(el);
      SlidingSizingReadsKindsOnly(el, ready, system, profiles);
      if system.systemType != TypeSliding then CalcOutcome(ready, None)
      else match SlidingSizing(ready, system, profiles)
        case Failure(e) => CalcOutcome(ready, Some(Sliding(e)))
        case Success(None) => CalcOutcome(ready, None)
        case Success(Some(sizes)) => CalcOutcome(ready.(winds := SizeWinds(ready.winds, profiles, sizes)), None)
  }

  /** Initialising maps that are all present changes nothing. */
  lemma InitDetailsFixesInitialised(el: Element)
    requires el.frame.details.Some?
    requires forall i :: 0 <= i < |el.winds| ==> el.winds[i].details.Some?
    ensures InitDetails(el) == el
  {
    var r := InitDetails(el);
    assert r.winds == el.winds;
  }

  /** Running the calculation again on its own result gives the same
      result: recalculating an element is harmless. */
  lemma RecalculationChangesNothing(el: Element, system: ProfileSystem, profiles: Profiles)
    ensures var r := CalculateDetails(el, system, profiles);
      CalculateDetails(r.element, system, profiles) == r
  {
    var r := CalculateDetails(el, system, profiles);
    if el.height > 0 && el.width > 0 && |profiles| > 0 {
      var ready := InitDetails(el);
      InitDetailsFixesInitialised(ready);
      if system.systemType == TypeSliding {
        SlidingSizingReadsKindsOnly(el, ready, system, profiles);
        match SlidingSizing(el, system, profiles)
        case Failure(_) =>
        case Success(None) =>
        case Success(Some(sizes)) =>
          var e := r.element;
          assert forall i :: 0 <= i < |e.winds| ==> e.winds[i].kind == ready.winds[i].kind;
          SlidingSizingReadsKindsOnly(e, ready, system, profiles);
          assert e.frame.details.Some?;
          assert forall i :: 0 <= i < |e.winds| ==> e.winds[i].details.Some?;
          InitDetailsFixesInitialised(e);
          forall i | 0 <= i < |e.winds|
            ensures SizeWind(e.winds[i], i, profiles, sizes) == e.winds[i]
          {
            var w := ready.winds[i];
            if w.kind == KindSlidingWind {
              SizedDetailsIdempotent(InitMap(w.details), i, profiles, sizes);
            }
          }
          assert SizeWinds(e.winds, profiles, sizes) == e.winds;
      }
    }
  }

  /** The roles the calculation reads. */
  const RolesRead: set<string> := {
    RoleFrameTopSliding, RoleFrameBottomSliding, RoleFrameSideSliding,
    RoleWindJambSideSliding, RoleWindJambMeetingSliding,
    RoleWindRailTopSliding, RoleWindRailBottomSliding }

  ghost predicate AgreeOn(p: Profiles, q: Profiles, roles: set<string>) {
    forall role :: role in roles ==> (role in p <==> role in q) && (role in p ==> p[role] == q[role])
  }

  lemma SizingAgrees(el: Element, system: ProfileSystem, p: Profiles, q: Profiles)
    requires AgreeOn(p, q, RolesRead)
    ensures SlidingSizing(el, system, p) == SlidingSizing(el, system, q)
  {
    assert RoleFrameTopSliding in RolesRead && RoleFrameBottomSliding in RolesRead;
    assert RoleFrameSideSliding in RolesRead && RoleWindJambMeetingSliding in RolesRead;
  }

  lemma SizedDetailsAgree(m: map<string, Detail>, i: int, p: Profiles, q: Profiles, sizes: SlidingSizes)
    requires AgreeOn(p, q, RolesRead)
    ensures SizedDetails(m, i, p, sizes) == SizedDetails(m, i, q, sizes)
  {
    assert RoleWindJambSideSliding in RolesRead && RoleWindJambMeetingSliding in RolesRead;
    assert RoleWindRailTopSliding in RolesRead && RoleWindRailBottomSliding in RolesRead;
    var n := sizes.activeWinds;
    assert LeftSku(p, n, i) == LeftSku(q, n, i) && RightSku(p, n, i) == RightSku(q, n, i);
    assert (RoleWindRailTopSliding in p <==> RoleWindRailTopSliding in q)
      && (RoleWindRailTopSliding in p ==> p[RoleWindRailTopSliding] == q[RoleWindRailTopSliding]);
    assert (RoleWindRailBottomSliding in p <==> RoleWindRailBottomSliding in q)
      && (RoleWindRailBottomSliding in p ==> p[RoleWindRailBottomSliding] == q[RoleWindRailBottomSliding]);
    assert WriteJambsAndRails(m, i, p, sizes) == WriteJambsAndRails(m, i, q, sizes);
  }

  /** The vertical overlap profile the selector may add is not used by the
      calculation: adding or replacing it leaves the result unchanged. */
  lemma OverlapProfileNotUsed(el: Element, system: ProfileSystem, profiles: Profiles, overlap: SelectedProfileInfo)
    requires |profiles| > 0
    ensures CalculateDetails(el, system, profiles[RoleWindVerticalOverlapSliding := overlap]) ==
            CalculateDetails(el, system, profiles)
  {
    var q := profiles[RoleWindVerticalOverlapSliding := overlap];
    assert RoleWindVerticalOverlapSliding !in RolesRead;
    assert AgreeOn(q, profiles, RolesRead);
    assert |q| > 0 by { assert RoleWindVerticalOverlapSliding in q; }
    var ready := InitDetails(el);
    SizingAgrees(ready, system, q, profiles);
    if el.height > 0 && el.width > 0 && system.systemType == TypeSliding {
      match SlidingSizing(ready, system, profiles)
      case Failure(_) =>
      case Success(None) =>
      case Success(Some(sizes)) =>
        forall i | 0 <= i < |ready.winds|
          ensures SizeWind(ready.winds[i], i, q, sizes) == SizeWind(ready.winds[i], i, profiles, sizes)
        {
          SizedDetailsAgree(InitMap(ready.winds[i].details), i, q, profiles, sizes);
        }
        assert SizeWinds(ready.winds, q, sizes) == SizeWinds(ready.winds, profiles, sizes);
    }
  }

  /** Edge roles follow the raw position in the panel list, not the rank
      among sliding panels: with a fixed pane first and two sliding panels
      after it, the leftmost sliding panel (position 1) gets the meeting
      jamb on its left edge and the side jamb on its right edge, the
      reverse of the same panel without the fixed pane (position 0). */
  lemma FixedPaneShiftsEdgeRoles(m: map<string, Detail>, profiles: Profiles, sizes: SlidingSizes)
    requires RoleWindJambMeetingSliding in profiles && RoleWindJambSideSliding in profiles
    requires profiles[RoleWindJambMeetingSliding].profile.sku != ""
    requires profiles[RoleWindJambSideSliding].profile.sku != ""
    requires sizes.activeWinds == 2
    ensures var shifted := SizedDetails(m, 1, profiles, sizes);
      && shifted[PositionLeft].profileSku == profiles[RoleWindJambMeetingSliding].profile.sku
      && shifted[PositionRight].profileSku == profiles[RoleWindJambSideSliding].profile.sku
    ensures var plain := SizedDetails(m, 0, profiles, sizes);
      && plain[PositionLeft].profileSku == profiles[RoleWindJambSideSliding].profile.sku
      && plain[PositionRight].profileSku == profiles[RoleWindJambMeetingSliding].profile.sku
  {
    assert PlannedPiece(PositionLeft, 1, profiles, sizes).Some?;
    assert PlannedPiece(PositionRight, 1, profiles, sizes).Some?;
    assert PlannedPiece(PositionLeft, 0, profiles, sizes).Some?;
    assert PlannedPiece(PositionRight, 0, profiles, sizes).Some?;
  }

  /** A catalog profile with only the fields the calculation reads set. */
  function SampleProfile(sku: string, h: real, h2: real): Profile {
    Profile(0, sku, sku, "", 0, 0, None, Some(h), None, None, Some(h2), None, None, None,
            None, None, None, None, "", None, false)
  }

  function SampleInfo(sku: string, h: real, h2: real): SelectedProfileInfo {
    SelectedProfileInfo(SampleProfile(sku, h, h2), StockItem(0, 0, 0, 0, sku, 0.0, None))
  }

  function SamplePanel(id: string, kind: string): Wind {
    Wind(id, id, kind, "", "", "", 0, 0, "", None)
  }

  /** A 2000 x 1500 two-panel sliding window: frame top and bottom profiles
      engaging 20 mm each, 5 mm overlaps top and bottom give 1450 mm panels;
      side profiles engaging 500 mm each leave a 1000 mm clear width; a
      20 mm meeting stile and 10 mm side overlaps give two 520 mm panels. */
  lemma TwoPanelExample()
    ensures var el := Element("E", 2000, 1500, "", TypeSliding, "",
                              Frame("", false, "", 2000, 1500, "", None),
                              [SamplePanel("A", KindSlidingWind), SamplePanel("B", KindSlidingWind)]);
      var system := ProfileSystem(1, "S", 0, TypeSliding, 0, false, 0.0, 5.0, 5.0, 10.0, None);
      var profiles := map[
        RoleFrameTopSliding := SampleInfo("FT", 0.0, 20.0),
        RoleFrameBottomSliding := SampleInfo("FB", 0.0, 20.0),
        RoleFrameSideSliding := SampleInfo("FS", 0.0, 500.0),
        RoleWindJambMeetingSliding := SampleInfo("JM", 20.0, 0.0)];
      SlidingSizing(el, system, profiles) == Success(Some(SlidingSizes(1450.0, 520.0, 2)))
  {
    var panels := [SamplePanel("A", KindSlidingWind), SamplePanel("B", KindSlidingWind)];
    assert ActiveWinds(panels) == 2 by {
      assert panels[1..] == [panels[1]] && panels[1..][1..] == [];
    }
    assert PanelWidth(1000.0, 2, 20.0, 10.0) == 520.0;
  }
}
