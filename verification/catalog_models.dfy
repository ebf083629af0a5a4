/** Catalog records as the profile catalog returns them. Optional fields
    are `Option`s; creation and update timestamps are not modelled. */
module CatalogModels {
  import opened Wrappers

  datatype Color = Color(colorId: int, name: string, hexCode: string)

  /** A catalog extrusion. `h` is the visible face, `w` the depth, `h2` the
      engagement depth used to shrink an opening; `usesOverlap` marks meeting
      stiles that need an extra vertical overlap piece. */
  datatype Profile = Profile(
    profileId: int,
    sku: string,
    name: string,
    profileType: string,
    materialId: int,
    supplierId: int,
    weightPerMeter: Option<real>,
    h: Option<real>,
    w: Option<real>,
    h1: Option<real>,
    h2: Option<real>,
    h3: Option<real>,
    h4: Option<real>,
    w1: Option<real>,
    cutType: Option<string>,
    cutMarginMm: Option<real>,
    trackCount: Option<int>,
    usesOverlap: Option<bool>,
    position: string,
    structure: Option<string>,
    weldMargin: bool)

  /** A family of compatible profiles for one element type, with the overlap
      margins (in millimetres) of a panel over its frame. */
  datatype ProfileSystem = ProfileSystem(
    systemId: int,
    name: string,
    supplierId: int,
    systemType: string,
    materialId: int,
    usesGlassBead: bool,
    glassMarginMm: real,
    topOverlapMm: real,
    bottomOverlapMm: real,
    sideOverlapMm: real,
    primacy: Option<int>)

  /** The availability record of one (profile, colour) pair. */
  datatype StockItem = StockItem(
    stockItemId: int,
    profileId: int,
    colorId: int,
    supplierId: int,
    itemSku: string,
    profilePrice: real,
    profileLength: Option<real>)

  /** One entry of a system's colour whitelist. */
  datatype SystemAvailableColor = SystemAvailableColor(systemId: int, colorId: int, colorCodeSuffix: string)

  /** One candidate profile for a role of a system, with its rank. */
  datatype SystemProfileListItem = SystemProfileListItem(
    systemId: int,
    profileId: int,
    primacy: Option<int>,
    elementPartRole: string)
}
