# windraw core in Dafny

A model of the quoting core of windraw, a back end for aluminium and PVC
window quotes. It covers five parts:

- **Profile selection** (`ProfileSelector`). For an element type, the
  first profile system in the catalog is chosen, and the desired colour is
  checked against that system's colour whitelist. Each requested role
  ("ranura") then gets the first candidate profile, in catalog order, that
  has a stock item in that colour. A selected meeting jamb that declares
  `usesOverlap` pulls in the vertical-overlap role. Every gap becomes a
  structured problem; only catalog failures on the system or colour lists
  are hard errors. The same candidate scan, without stopping at the first
  hit, lists the alternatives for one slot.
- **Sliding-panel sizing** (`WindowCalculation`). From the element size, the
  engagement depth (H2) of the frame top, bottom and side profiles, and the
  system's overlap margins, it computes one finished height and one width
  shared by every sliding panel. It writes them into each panel's jamb and
  rail details with square ends.
- **Elements, frames and winds** (`ElementModels`). This covers the
  constructors with their ordered validation, adding a wind, setting the
  profile at a frame or wind position, and the cut-length computation per
  piece.
- **Projects** (`ProjectModels`, `ComponentModels`, `ValidOptions`). This
  covers building a project, checking the contact, adding components and
  option checks.
- **Project file names** (`ProjectFile`). This covers cleaning the client
  name the way the two Go RE2 regular-expression passes do, and composing
  `"<id> - <client>.json"`.

The catalog repository is a pure oracle: a `Catalog` value holds total
functions that answer each query with `Found`, `Absent` or `LookupFailed`,
or with a `Result` for list queries. Go `nil` maps and slices are `Option`s.
Sizes computed in floating point are `real`; Go's `int(x)` on a float is
written out as truncation toward zero (`ElementModels.Trunc`). Generated
identifiers and the clock are parameters. Every operation is a pure
function from the old value to the new one; in-place mutation in the source
becomes a returned value. `CalculateDetails` returns the element together
with the error, because the source mutates the element before it can fail.

## Model

| member | source | states |
|---|---|---|
| ValidOptions.IsValidOption | internal/app/window-api/models/project_models.go:37-44 | true exactly when the value is one of the listed options |
| ProjectModels.ValidateContact | internal/app/window-api/models/project_models.go:78-84 | a contact is rejected exactly when its name is empty, and then with the empty-name error |
| ProjectModels.NewProject | internal/app/window-api/models/project_models.go:88-114 | an empty project name fails first, then an invalid contact; otherwise every argument is stored and nil cost or component lists become empty lists |
| ProjectModels.AddComponent | internal/app/window-api/models/project_models.go:117-119 | the component is appended after the existing ones, which are kept in order; nothing else in the project changes |
| ProjectModels.AddComponentsInOrder | internal/app/window-api/models/project_models.go:117-119 | adding components one by one yields the old list followed by the new ones in the order added |
| ElementModels.NewFrame | internal/app/window-api/models/element_models.go:79-124 | fails exactly on a non-positive size; otherwise empty geometry and cut type fall back to the defaults, and there is one blank detail per position and no other key |
| ElementModels.NewWind | internal/app/window-api/models/element_models.go:127-170 | checks in order name, size, kind, cut type and reports the first failure; succeeds exactly when all pass; the wind then carries the inputs and blank details per position |
| ElementModels.NewElement | internal/app/window-api/models/element_models.go:173-217 | checks in order size, material, type, structure; on success the element has no winds and its frame has the element's size and the default geometry, cut type and positions |
| ElementModels.AddWind | internal/app/window-api/models/element_models.go:220-228 | fails exactly when a wind of that name exists; otherwise the wind is appended and the rest of the element is unchanged |
| ElementModels.AddWindKeepsNamesDistinct | internal/app/window-api/models/element_models.go:220-228 | wind names stay pairwise distinct under AddWind |
| ElementModels.SetFrameProfile | internal/app/window-api/models/element_models.go:231-243 | fails exactly for a nil map, an unknown position or an empty SKU; otherwise only that position changes, and only in SKU and colour |
| ElementModels.SetWindProfile | internal/app/window-api/models/element_models.go:294-306 | the same contract for a wind's details |
| ElementModels.Trunc | internal/app/window-api/models/element_models.go:264 | truncation toward zero: the result is within one of the real and on the zero side of it |
| ElementModels.CalculateFrameDetails | internal/app/window-api/models/element_models.go:246-291 | keys kept; pieces without SKU untouched; others get height or width less the truncated profile width at 45 degrees (angle cut), plain height or width at 90 degrees (square cut), or 0 (other); reinforcement cleared; positions other than the four edges get length 0 and the cut type's angle |
| ElementModels.CalculateWindDetails | internal/app/window-api/models/element_models.go:309-365 | as for frames, plus the vertical-overlap cut: verticals full height at 90 degrees, horizontals width less the truncated profile width at 45 degrees; positions other than the four edges get length 0 and the cut type's angle |
| ElementModels.CalculateFrameDetailsIdempotent | internal/app/window-api/models/element_models.go:246-291 | recomputing a frame's cut lengths a second time changes nothing |
| ElementModels.CalculateWindDetailsIdempotent | internal/app/window-api/models/element_models.go:309-365 | recomputing a wind's cut lengths a second time changes nothing |
| ProjectFile.RemoveDisallowed | internal/pkg/projectfile/manager.go:24-25 | keeps exactly the word, whitespace, '.' and '-' characters; empty exactly when none is kept; identity when all are kept; one character is kept or dropped on its own |
| ProjectFile.RemoveDisallowedAppend | internal/pkg/projectfile/manager.go:24-25 | cleaning a concatenation cleans each part, so the result is the kept characters of the input in their order |
| ProjectFile.TrimSpace | internal/pkg/projectfile/manager.go:26 | the result is the input between its leading and its trailing ASCII whitespace, so only whitespace is cut; it has no whitespace at either end; identity when the ends are not whitespace |
| ProjectFile.CollapseSpaces | internal/pkg/projectfile/manager.go:26 | never two spaces in a row, whitespace only as ' '; the non-whitespace characters are the input's, in order; a whitespace-only input becomes one space; non-space first and last characters kept |
| ProjectFile.CollapseSpacesAppend | internal/pkg/projectfile/manager.go:26 | collapsing a concatenation whose seam is not inside a whitespace run collapses each part |
| ProjectFile.SanitizeFilename | internal/pkg/projectfile/manager.go:20-28 | the empty name becomes "untitled"; the result is clean (file-name characters only, no space at the ends, none doubled); its non-whitespace characters are exactly the input's allowed non-whitespace characters, in order; its word layout (which characters begin a word) is that of the allowed characters; a name with no kept character becomes "" |
| ProjectFile.CleanLayoutDetermines | internal/pkg/projectfile/manager.go:24-26 | two clean names with the same word layout are equal, so the layout and cleanliness fix a cleaned name |
| ProjectFile.SanitizeByLayout | internal/pkg/projectfile/manager.go:20-28 | for a non-empty name, the cleaned name is the only clean string whose words are those of the name's allowed characters, in order |
| ProjectFile.CollapseMarks | internal/pkg/projectfile/manager.go:26 | collapsing whitespace runs keeps every word and where words begin |
| ProjectFile.TrimKeepsLayout | internal/pkg/projectfile/manager.go:26 | trimming a string without vertical tabs keeps its words and where they begin |
| ProjectFile.SanitizeFixedPoints | internal/pkg/projectfile/manager.go:20-28 | a non-empty name is left unchanged exactly when it is already clean |
| ProjectFile.SanitizeIdempotent | internal/pkg/projectfile/manager.go:20-28 | cleaning twice equals cleaning once whenever the first result is non-empty |
| ProjectFile.ClientName | internal/pkg/projectfile/manager.go:38-41 | the contact's name when it has one, "UnknownClient" otherwise |
| ProjectFile.FormatFilenameSplits | internal/pkg/projectfile/manager.go:44-45 | the file name splits back into the ID, " - ", the client part and ".json" |
| ProjectFile.GenerateProjectFilename | internal/pkg/projectfile/manager.go:33-47 | fails exactly for a missing project or an empty ID; otherwise the ID, " - ", the cleaned client name and ".json" |
| ProjectFile.GeneratedFilenameHasNoSeparator | internal/pkg/projectfile/manager.go:33-47 | the client part never brings '/' or '\' into the file name |
| ProfileSelector.TryCandidate | internal/app/window-api/services/profile_selector_service.go:84-111 | a candidate passes exactly when its profile is found and that profile has a stock item in the colour; the result is that pair |
| ProfileSelector.FirstStocked | internal/app/window-api/services/profile_selector_service.go:84-116 | a selected profile's stock item is the catalog's for that profile and colour |
| ProfileSelector.FirstStockedIsEarliest | internal/app/window-api/services/profile_selector_service.go:84-116 | the scan returns the earliest passing candidate, and nothing exactly when no candidate passes |
| ProfileSelector.SelectProfileForSingleRole | internal/app/window-api/services/profile_selector_service.go:56-117 | a list failure is a system error; an empty list is "no candidates"; no passing candidate is "none stocked"; otherwise the earliest passing candidate |
| ProfileSelector.AllStocked | internal/app/window-api/services/profile_selector_service.go:290-321 | every listed alternative is stocked in the colour, and there are no more than candidates |
| ProfileSelector.AllStockedMembers | internal/app/window-api/services/profile_selector_service.go:290-321 | the alternatives are exactly the passing candidates |
| ProfileSelector.AllStockedAppend | internal/app/window-api/services/profile_selector_service.go:290-321 | filtering distributes over concatenation, so catalog order is kept |
| ProfileSelector.ListAlternativeProfilesForSlot | internal/app/window-api/services/profile_selector_service.go:257-325 | an empty role and a list failure are errors; otherwise the result is exactly the passing candidates, each stocked |
| ProfileSelector.AlternativesHeadIsSelection | internal/app/window-api/services/profile_selector_service.go:257-325 | the first alternative is the single-role selection, and there are none exactly when nothing is selected |
| ProfileSelector.ResolveRoleSpec | internal/app/window-api/services/profile_selector_service.go:191-235 | one loop step keeps the state consistent with the single-role selections and handles the role, plus the overlap role when the meeting jamb needs it |
| ProfileSelector.ResolveRolesSpec | internal/app/window-api/services/profile_selector_service.go:189-236 | after the loop each handled role appears once and has its selection or one role problem; the handled roles are the requested ones plus the overlap when needed |
| ProfileSelector.RepeatedRolesChangeNothing | internal/app/window-api/services/profile_selector_service.go:191-195 | asking for the same roles twice gives the same selection as asking once |
| ProfileSelector.SelectRoleProfiles | internal/app/window-api/services/profile_selector_service.go:189-236 | a required role has a profile exactly when its selection succeeds, and that profile; every other required role has exactly one role problem, and no two problems name the same role; each problem is the role's own "nothing selected" problem, or a system error with the catalog's reason when the lookup failed |
| ProfileSelector.RoleLoopFromEmpty | internal/app/window-api/services/profile_selector_service.go:189-236 | for any single-role selection whose problems name their role, the loop from an empty state gives profiles exactly for the successful required roles and one problem for each other required role, which reports that role's outcome |
| ProfileSelector.ResolveRolesReports | internal/app/window-api/services/profile_selector_service.go:197-231 | every problem the loop appends reports its role's outcome: the single-role problem, or a system error carrying the lookup's reason; only the vertical-overlap role can carry an overlap system error |
| ProfileSelector.ProblemsCoverRequired | internal/app/window-api/services/profile_selector_service.go:189-236 | after the loop the problems are role problems naming pairwise different roles, and every required role without a profile has one |
| ProfileSelector.SelectDefaultSystemAndProfiles | internal/app/window-api/services/profile_selector_service.go:121-241 | system-list and colour-list failures are errors; no system, a colour off the whitelist or missing colour details each end with exactly one problem; a whitelisted colour with details always succeeds with the first system and that colour, and per-role results as for SelectRoleProfiles, each problem reporting its role's outcome |
| WindowCalculation.ActiveWinds | internal/app/window-api/services/window_calculation_service.go:171-176 | zero exactly when no panel is a sliding one; at most the number of panels |
| WindowCalculation.ActiveWindsAppend | internal/app/window-api/services/window_calculation_service.go:171-176 | the count distributes over concatenation |
| WindowCalculation.PanelWidth | internal/app/window-api/services/window_calculation_service.go:199-201 | n panels of this width, overlapping each other at n-1 meetings and the frame at both ends, span the clear width exactly |
| WindowCalculation.SlidingSizing | internal/app/window-api/services/window_calculation_service.go:104-210 | the checks run in source order: top, bottom, panel height, side, clear width, then the panel count; success implies a positive panel height and clear width; the height stack adds up to the element height; the panels span the clear width; every error carries the non-positive value it found; no sliding panel means nothing to size |
| WindowCalculation.WidthSizing | internal/app/window-api/services/window_calculation_service.go:146-210 | with a positive panel height: a missing side role or a non-positive clear width fails, no sliding panel sizes nothing, and otherwise the panels span the clear width at the given height |
| WindowCalculation.SlidingSizingReadsKindsOnly | internal/app/window-api/services/window_calculation_service.go:104-210 | sizing depends only on the element's size and its panels' kinds |
| WindowCalculation.SquarePiece | internal/app/window-api/services/window_calculation_service.go:243-250 | a finished piece has the SKU and length with 90-degree ends, and keeps position, colour and reinforcement |
| WindowCalculation.WriteDetail | internal/app/window-api/services/window_calculation_service.go:243-250 | one key is added or replaced by a finished piece over the old (or zero) detail; every other detail is kept |
| WindowCalculation.SizedDetails | internal/app/window-api/services/window_calculation_service.go:216-303 | exactly the planned jamb and rail pieces are written, jambs with the panel height and rails with the panel width; all other details are kept |
| WindowCalculation.SizedDetailsIdempotent | internal/app/window-api/services/window_calculation_service.go:216-303 | sizing a panel's details twice is sizing them once |
| WindowCalculation.SizeWind | internal/app/window-api/services/window_calculation_service.go:216-222 | non-sliding panels are untouched; sliding panels change only in their detail map |
| WindowCalculation.FixedPaneShiftsEdgeRoles | internal/app/window-api/services/window_calculation_service.go:225-263 | edge roles follow the raw list position: a sliding panel after a fixed pane gets the meeting jamb on its outer left edge |
| WindowCalculation.InitDetails | internal/app/window-api/services/window_calculation_service.go:59-69 | nil maps of the frame and of every panel become empty maps; nothing else changes |
| WindowCalculation.CalculateDetails | internal/app/window-api/services/window_calculation_service.go:40-100 | a non-positive size or no profiles returns the element unchanged with the error; otherwise maps are initialised; non-sliding systems stop there; sliding failures return the initialised element with the cause; success sizes every panel |
| WindowCalculation.RecalculationChangesNothing | internal/app/window-api/services/window_calculation_service.go:40-100 | running the calculation on its own result gives the same result |
| WindowCalculation.OverlapProfileNotUsed | internal/app/window-api/services/window_calculation_service.go:305-325 | adding or replacing the vertical-overlap profile does not change the result |
| WindowCalculation.TwoPanelExample | internal/app/window-api/services/window_calculation_service.go:104-210 | a 2000 x 1500 two-panel window with 20 mm frame H2, 5 mm overlaps, 500 mm side H2, a 20 mm meeting stile and 10 mm side overlap gives 1450 x 520 panels |

## Left out

- Logging, `context.Context`, the service structs and their constructors: they have no effect on results.
- The repository's database access (`supabase_profile_catalog_repository.go`): it is the `Catalog` oracle here. Its ordering by primacy is taken as given.
- `SaveProject` and `LoadProject` (`manager.go:50-107`): file I/O and JSON encoding.
- `generateID` and `time.Now`: the identifier and creation time are parameters of the constructors.
- Area and perimeter of elements, frames and winds: no modelled operation reads them. The constructors' floating-point computation of them is left out.
- The frame-sizing step of `CalculateDetails` and casement sizing are TODOs in the source. They are modelled as doing nothing.
- `ProfileSelector.SelectDefaultSystemAndProfiles`: messages are structured `Problem` values, not the formatted Spanish text. Wrapped Go errors are reduced to their reason string.
- `ElementModels.NewElement`: the frame constructor's failure branch cannot be reached, because the size was checked first. The model takes the frame unconditionally.
- Byte strings that are not valid UTF-8: names are sequences of Unicode characters here. Every non-ASCII character is deleted by the first cleaning pass, as RE2's `\w` and `\s` are ASCII-only.
- `WindowCalculation.CalculateDetails`: the source reads an element `int` size as a `float64`, which Go would reject without a conversion. The model converts sizes to reals.
- Detail `Dimension` is an `int` field that the calculation assigns a float. The model uses `real` throughout.
- `WindowCalculation.CalculateDetails`: the element cannot be nil, since a Dafny value always exists. The source's nil check comes after it has already dereferenced the element for logging.
- When a meeting jamb needs an overlap profile that was not chosen, the source only logs it. The model records no error either.
- Edge roles by raw list position (`WindowCalculation.FixedPaneShiftsEdgeRoles`) are modelled as written, not corrected. The source marks the assignment as a simplification to refine.
- The `Properties` map of elements and the material, supplier and reinforcement catalog queries: no modelled operation reads them.
- WindowCalculation.SlidingSizing: each sizing error keeps only the non-positive value it found. The source's messages also print the inputs of that computation (element size, H2 values, overlaps, panel count).
- WindowCalculation.SlidingSizing: Go maps are references, so the source's writes to a panel's detail map are visible through every copy of the element, including the caller's. The model returns a new element value and has no aliasing.
- ProfileSelector.SelectRoleProfiles: a lookup failure on the vertical-overlap role is promised to be a role or an overlap system error with the catalog's reason. Which one it is depends on whether the role was requested before the meeting jamb pulled it in, and the contract does not say.
