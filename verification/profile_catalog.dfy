/** The read-only catalog the selector consumes, as a pure oracle. Each
    single-record lookup has three outcomes: found, confirmed absent, or a
    failure of the catalog itself; list lookups either succeed (possibly with
    an empty, already ordered list) or fail. */
module ProfileCatalog {
  import opened Wrappers
  import opened CatalogModels

  datatype Lookup<+T> = Found(value: T) | Absent | LookupFailed(reason: string)

  /** The lookups of the catalog repository used by the core. List results
      come in the catalog's order (systems by primacy ascending, role
      candidates by primacy descending); the core never re-sorts them. */
  datatype Catalog = Catalog(
    profileById: int -> Lookup<Profile>,
    profileSystemsByType: string -> Result<seq<ProfileSystem>, string>,
    systemProfileListItems: (int, string) -> Result<seq<SystemProfileListItem>, string>,
    colorById: int -> Lookup<Color>,
    systemAvailableColors: int -> Result<seq<SystemAvailableColor>, string>,
    stockItem: (int, int) -> Lookup<StockItem>)
}
