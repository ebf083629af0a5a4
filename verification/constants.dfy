/** The string constants of the window quoting core: system types, wind
    kinds, functional roles of profiles in a sliding system, and the
    position keys of the per-piece detail maps. */
module Constants {

  // System types (ProfileSystem.systemType)
  const TypeSliding := "Sliding"
  const TypeCasement := "Casement"

  // Wind kinds (Wind.kind)
  const KindSlidingWind := "Corredera"
  const KindCasementWind := "Abatible"
  const KindFixedPane := "Fijo"

  // Element part roles of a sliding system
  const RoleFrameTopSliding := "FRAME_PERIMETER_TOP_SLIDING"
  const RoleFrameBottomSliding := "FRAME_PERIMETER_BOTTOM_SLIDING"
  const RoleFrameSideSliding := "FRAME_PERIMETER_SIDE_SLIDING"
  const RoleWindJambSideSliding := "WIND_JAMB_SIDE_SLIDING"
  const RoleWindJambMeetingSliding := "WIND_JAMB_MEETING_SLIDING"
  const RoleWindRailTopSliding := "WIND_RAIL_TOP_SLIDING"
  const RoleWindRailBottomSliding := "WIND_RAIL_BOTTOM_SLIDING"
  const RoleWindVerticalOverlapSliding := "WIND_VERTICAL_OVERLAP_SLIDING"

  // Keys of Frame.details and Wind.details
  const PositionTop := "Top"
  const PositionBottom := "Bottom"
  const PositionLeft := "Left"
  const PositionRight := "Right"
  const PositionMiddle := "Middle"
}
