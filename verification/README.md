# Clinicare treatment-solution composer, modelled in Dafny

This project models the core of the Clinicare clinic application: the
treatment-solution composer and the small pure helpers of its pages.

In the composer, a practitioner drags catalog treatments (laser, peeling,
in-cabin care, home care) onto a drop zone. They reorder the placed steps,
configure each step in a dialog (timing, same-session flag, notes, laser or
peeling parameters), and save the protocol through the `/api/solutions`
endpoint. Around the composer sit:

- the solution list, with its search, filter tabs, category icons and favourite toggle;
- the cabin product page, with its product search and range (gamme) filter;
- the bottom navigation bar;
- the training overview's progress figures;
- the manager dashboard's ranking.

Each source component is one Dafny module:

| module | file | models |
|---|---|---|
| `Steps` | `steps.dfy` | the step record and the prefix classification of step types (colour, icon) |
| `Catalog` | `catalog.dfy` | the step library, the name lookup, the accordion state |
| `Composer` | `composer.dfy` | the composer's step list: drag end, remove, replace, the save payload |
| `Grouping` | `grouping.dfy` | the drop zone's grouping of steps into timing buckets |
| `Preview` | `preview.dfy` | the summary panel: counts, duration in weeks, save button, timeline |
| `ConfigModal` | `configmodal.dfy` | the step configuration dialog |
| `SolutionsApi` | `solutionsapi.dfy` | the `GET` and `POST` handlers of `/api/solutions` |
| `SolutionList` | `solutionlist.dfy` | the solution list page |
| `Products` | `products.dfy` | the cabin product page |
| `Navigation` | `navigation.dfy` | the bottom navigation bar |
| `Formation` | `formation.dfy` | the training overview page |
| `Ranking` | `ranking.dfy` | the manager dashboard's ranking |

Four support modules hold the JavaScript semantics the pages rely on:

- `Options` holds `undefined` and `null` as `None`.
- `Strings` holds `startsWith`, `includes`, ASCII `toLowerCase`, `replace` of the first occurrence, and `parseInt`.
- `Seqs` holds `filter` and the subsequence relation.
- `SortBy` holds `Array.prototype.sort` with a numeric-key comparator. It is a stable insertion sort, which the standard requires of `sort` since ES2019.

Effects are parameters:

- The random id of a new step.
- The session's e-mail address.
- The user table and the stored solutions.
- The outcome of a `fetch`.
- The set of `StepType` enumeration values.

The solution list page has its own copies of `getStepIcon` and `getStepColor`. They are identical to the step card's, so both use `Steps.StepIcon` and `Steps.StepColor`.

In these places the code behaves differently from what a reader might expect; the model follows the code:

- With no dated step, the duration shows one week (`Math.ceil(0 / 7) || 1`), not zero.
- The open-ended `+` after the duration comes from a step whose *type* starts with `DOMICILE`. It does not come from a step with daily timing.
- Updating a step whose id is not in the list changes nothing silently. No error is raised.
- The favourite toggle flips the local flag whatever status the server answers, unless the request throws.
- The "Mine" tab keeps every visible solution that is not a template. This includes public solutions of other users, because a summary carries no author.

## Model

| member | source | states |
|---|---|---|
| Steps.PrefixesExclusive | src/components/features/solutions/StepCard.tsx:21-27 | no type starts with two category prefixes, so the order of the prefix checks never decides anything |
| Steps.CategoryOf | src/components/features/solutions/StepCard.tsx:21-27 | a type is classified under a category exactly when it starts with that category's prefix, and is unclassified when no prefix matches |
| Steps.StepColor | src/components/features/solutions/StepCard.tsx:21-27 | a type gets the colour of the category whose prefix it carries, and the neutral grey exactly when it carries none |
| Steps.ColorsDistinct | src/components/features/solutions/StepCard.tsx:21-27 | the four category colours are pairwise different and none is the neutral grey |
| Steps.StepIcon | src/components/features/solutions/StepCard.tsx:29-35 | a type gets its category's icon; the sparkles icon is shown exactly for cabin types and unclassified types |
| Strings.ParseIntDecimal | src/components/features/solutions/SolutionPreview.tsx:57 | `parseInt` reads the decimal spelling of any natural number back as that number |
| Catalog.LibraryShape | src/components/features/solutions/StepLibrary.tsx:10-57 | the library has four categories in the order laser, peeling, cabine, domicile, each with its category's id, colour and icon |
| Catalog.CatalogTypesDistinct | src/components/features/solutions/StepLibrary.tsx:10-57 | the library lists fourteen items and no step type twice, within or across categories |
| Catalog.CatalogClassification | src/components/features/solutions/StepLibrary.tsx:10-57 | every item's type is classified under the category it is listed in, and gets that category's colour and icon |
| Catalog.ItemCategory | src/components/features/solutions/StepLibrary.tsx:10-57 | an item's type carries the prefix of its own category and of no other |
| Catalog.FindIn | src/components/features/solutions/SolutionBuilder.tsx:50 | `items.find`: nothing iff no item has the type, otherwise the first item that has it |
| Catalog.FindInCategories | src/components/features/solutions/SolutionBuilder.tsx:48-54 | nothing iff no item of any category has the type, otherwise a library item of exactly that type |
| Catalog.FindStepInfo | src/components/features/solutions/SolutionBuilder.tsx:48-54 | a type absent from the library is named after itself, with an empty description |
| Catalog.FindStepInfoCatalog | src/components/features/solutions/SolutionBuilder.tsx:48-54 | every library type is named with its own item's name and description |
| Catalog.ToggleCategory | src/components/features/solutions/SolutionBuilder.tsx:164-165 | clicking the open category closes it; clicking any other opens that one |
| Catalog.AtMostOneExpanded | src/components/features/solutions/StepLibrary.tsx:124 | whatever the state, at most one category shows its items |
| Composer.DefaultTiming | src/components/features/solutions/SolutionBuilder.tsx:74 | a new step is daily exactly when its type starts with `DOMICILE`, and day 0 otherwise |
| Composer.FindIndex | src/components/features/solutions/SolutionBuilder.tsx:88-89 | -1 exactly when no step has the id, otherwise the first index that has it |
| Composer.ArrayMove | src/components/features/solutions/SolutionBuilder.tsx:91 | every position of the moved list holds the element the `arrayMove` index shift assigns to it |
| Composer.ArrayMoveKeepsOthers | src/components/features/solutions/SolutionBuilder.tsx:91 | the dragged step lands at the target index and all other steps keep their relative order |
| Composer.ArrayMoveInverse | src/components/features/solutions/SolutionBuilder.tsx:91 | moving back from the target to the source index restores the list |
| Composer.ArrayMovePermutation | src/components/features/solutions/SolutionBuilder.tsx:91 | a reorder is a permutation: no step is lost or duplicated |
| Composer.ArrayMoveKeepsUnique | src/components/features/solutions/SolutionBuilder.tsx:88-92 | a reorder keeps step ids unique |
| Composer.RemoveStep | src/components/features/solutions/SolutionBuilder.tsx:96-98 | after removal no step carries the id, and the rest keep their order |
| Composer.RemoveAbsent | src/components/features/solutions/SolutionBuilder.tsx:96-98 | removing an id that is not in the list changes nothing |
| Composer.RemoveIdempotent | src/components/features/solutions/SolutionBuilder.tsx:96-98 | removing twice is the same as removing once |
| Composer.RemoveMembers | src/components/features/solutions/SolutionBuilder.tsx:96-98 | the remaining steps are exactly the steps with another id |
| Composer.RemoveOnePresent | src/components/features/solutions/SolutionBuilder.tsx:96-98 | with unique ids, removing a present id removes exactly one step |
| Composer.RemoveKeepsUnique | src/components/features/solutions/SolutionBuilder.tsx:96-98 | removal keeps step ids unique |
| Composer.AppendKeepsUnique | src/components/features/solutions/SolutionBuilder.tsx:76-83 | appending a step under a fresh id keeps step ids unique |
| Composer.RemoveUndoesAppend | src/components/features/solutions/SolutionBuilder.tsx:76-98 | removing the step just dropped under a fresh id restores the previous list |
| Composer.ReplaceStep | src/components/features/solutions/SolutionBuilder.tsx:104-107 | saving a configuration keeps the length and the ids; steps with the saved id become the saved step and the others are untouched |
| Composer.ReplaceAbsent | src/components/features/solutions/SolutionBuilder.tsx:104-107 | a configuration saved for an id no longer in the list is dropped silently |
| Composer.ReplaceKeepsUnique | src/components/features/solutions/SolutionBuilder.tsx:104-107 | saving a configuration keeps step ids unique |
| Composer.HandleDragEnd | src/components/features/solutions/SolutionBuilder.tsx:60-94 | a drop over nothing changes nothing; the dialog opens iff a library item lands on the drop zone, which appends its new step; a library item dropped elsewhere changes nothing; a placed step dropped over another moves to that step's index, and over an unknown id or itself changes nothing |
| Composer.DragIsTransactional | src/components/features/solutions/SolutionBuilder.tsx:60-94 | a drag end leaves the list unchanged, or appends exactly one step of the dragged type under the fresh id, or permutes the list so that the dragged step sits where the target step was |
| Composer.DragKeepsUnique | src/components/features/solutions/SolutionBuilder.tsx:60-94 | given a fresh id, every drag end keeps step ids unique |
| Composer.DropCatalogItem | src/components/features/solutions/SolutionBuilder.tsx:69-85 | dropping a library item appends a step named after the item, of the item's type and not in the same session; it is daily exactly for home-care items and day 0 for the rest; it is also the step the dialog opens on |
| Composer.SavePayload | src/components/features/solutions/SolutionBuilder.tsx:109-128 | nothing is sent iff the name is empty or there are no steps; otherwise every step is sent in list order with `order` equal to its position, and absent parameters and notes are sent as `{}` and `""` |
| Grouping.TimingRank | src/components/features/solutions/StepDropZone.tsx:29-31 | a timing outside the fixed order ranks -1; any other ranks at its position in the order |
| Grouping.Timings | src/components/features/solutions/StepDropZone.tsx:22-27 | the bucket keys are distinct and are exactly the timings that occur among the steps |
| Grouping.Bucket | src/components/features/solutions/StepDropZone.tsx:22-27 | a bucket holds exactly the steps of its timing, in list order |
| Grouping.GroupByTiming | src/components/features/solutions/StepDropZone.tsx:22-32 | one group per occurring timing, no timing twice, every step in the group of its own timing, no empty group, and the groups in the order J0, J+7, J+14, J+21, J+28, Quotidien with timings outside that order first |
| Grouping.SortedTimingsAreTimings | src/components/features/solutions/StepDropZone.tsx:22-32 | sorting the keys loses and duplicates none |
| Grouping.GroupingIsPartition | src/components/features/solutions/StepDropZone.tsx:22-32 | every step is in the single group of its own timing; each group holds exactly the steps of its timing, in list order; no group is empty |
| Grouping.GroupsInTimingOrder | src/components/features/solutions/StepDropZone.tsx:29-32 | groups are shown in the order J0, J+7, J+14, J+21, J+28, Quotidien; timings outside that order come before all of them |
| Grouping.UnknownTimingsInAppearanceOrder | src/components/features/solutions/StepDropZone.tsx:30-32 | timings outside the fixed order keep their order of first appearance, since the sort is stable |
| Grouping.EmptyHasNoGroups | src/components/features/solutions/StepDropZone.tsx:44 | the placeholder shows exactly when there are no groups to show |
| Grouping.GroupLabel | src/components/features/solutions/StepDropZone.tsx:60 | the daily bucket is titled "Domicile - Quotidien"; every other bucket is titled with its own timing |
| Grouping.DailyFirstDisplaysAfterJ0 | src/components/features/solutions/StepDropZone.tsx:22-32 | a daily step placed before a day-0 step is still displayed after it, each alone in its group |
| Preview.CategoryCountsBounded | src/components/features/solutions/SolutionPreview.tsx:48-51 | no step is counted in two categories, so the four counts add up to at most the number of steps |
| Preview.CategoryCountMembers | src/components/features/solutions/SolutionPreview.tsx:48-51 | a category's count is positive exactly when some step's type carries its prefix |
| Preview.TimingValueOfLabel | src/components/features/solutions/SolutionPreview.tsx:57 | the labels `J<n>` and `J+<n>` are read as day `n` |
| Preview.DomicileCountMembers | src/components/features/solutions/SolutionPreview.tsx:51 | the home-care count is positive exactly when some step type starts with `DOMICILE` |
| Preview.MaxDay | src/components/features/solutions/SolutionPreview.tsx:54-59 | for any reading of the labels, the reduce's maximum is non-negative and bounds the day of every non-daily step |
| Preview.MaxDaySnoc | src/components/features/solutions/SolutionPreview.tsx:54-59 | appending a daily step leaves the maximum alone; any other step raises it to its own day when that is larger |
| Preview.MaxDayAttained | src/components/features/solutions/SolutionPreview.tsx:54-59 | a positive maximum is the day of some non-daily step, for any reading of the labels |
| Preview.MaxTiming | src/components/features/solutions/SolutionPreview.tsx:54-59 | the maximum is non-negative and at least the day of every non-daily step |
| Preview.MaxTimingAttained | src/components/features/solutions/SolutionPreview.tsx:54-59 | a positive maximum is the day of some non-daily step |
| Preview.DurationWeeks | src/components/features/solutions/SolutionPreview.tsx:61 | the week count is the least number of whole weeks covering the last day, and 1 when there is no dated day |
| Preview.ComputeStats | src/components/features/solutions/SolutionPreview.tsx:48-62 | each category count is the number of steps carrying that prefix, and together they never exceed the step count; the week count is the covering week count of the latest dated day (at least one); the `+` marker shows exactly when a home-care step is present |
| Preview.AddDailyKeepsWeeks | src/components/features/solutions/SolutionPreview.tsx:54-62 | adding a daily step does not change the duration; a daily home-care step adds the `+` marker |
| Preview.WeeksJ14J28 | src/components/features/solutions/SolutionPreview.tsx:54-61 | steps at J+14 and J+28 give four weeks |
| Preview.WeeksJ7 | src/components/features/solutions/SolutionPreview.tsx:54-61 | a single step at J+7 gives one week |
| Preview.WeeksDayZero | src/components/features/solutions/SolutionPreview.tsx:54-61 | day-0 steps only, or no steps, give one week |
| Preview.SaveEnabledSends | src/components/features/solutions/SolutionPreview.tsx:166 | an enabled save button always leads to a request, and a save that would send nothing always has the button disabled |
| Preview.Timeline | src/components/features/solutions/SolutionPreview.tsx:139 | the timeline shows the first steps in list order, at most five |
| Preview.HiddenCount | src/components/features/solutions/SolutionPreview.tsx:152-156 | the "more" line appears exactly when there are more than five steps |
| Preview.TimelineCoversAll | src/components/features/solutions/SolutionPreview.tsx:139-156 | the rows shown plus the number announced account for every step exactly once |
| ConfigModal.Load | src/components/features/solutions/StepConfigModal.tsx:26-33 | a present step's timing, flag, notes and parameters are loaded, absent notes as "" and absent parameters as `{}`; without a step the state is kept |
| ConfigModal.Save | src/components/features/solutions/StepConfigModal.tsx:40-47 | the saved step keeps its id, type and name and takes the edited timing, same-day flag, notes and parameters, notes and parameters now always present |
| ConfigModal.SaveAction | src/components/features/solutions/StepConfigModal.tsx:35-49 | the dialog saves nothing exactly when there is no step; otherwise it hands back the step patched with all four edited fields, as `Save` describes |
| ConfigModal.SaveUnedited | src/components/features/solutions/StepConfigModal.tsx:26-49 | saving without editing gives the step back, with absent notes and parameters made explicit |
| ConfigModal.LoadAfterSave | src/components/features/solutions/StepConfigModal.tsx:26-49 | reopening the dialog on a saved step shows exactly the saved state |
| ConfigModal.VisibleKeys | src/components/features/solutions/StepConfigModal.tsx:96-171 | a key is writable exactly when some visible input writes it |
| ConfigModal.PanelsExclusive | src/components/features/solutions/StepConfigModal.tsx:37-38 | no type shows both the laser and the peeling panel |
| ConfigModal.SetParam | src/components/features/solutions/StepConfigModal.tsx:106 | typing into an input sets its key to the text and keeps every other key and value |
| ConfigModal.SetParamShown | src/components/features/solutions/StepConfigModal.tsx:105-106 | an input shows what was typed into it, and the other inputs show what they showed before |
| ConfigModal.Apply | src/components/features/solutions/StepConfigModal.tsx:66-171 | each control changes its own field only, and a parameter input then shows the typed value |
| ConfigModal.SessionTiming | src/components/features/solutions/StepConfigModal.tsx:66-75 | after any run of edits the timing is the loaded one or one of the six options, and it is the loaded one when no badge was clicked |
| ConfigModal.SessionKeepsHiddenKeys | src/components/features/solutions/StepConfigModal.tsx:96-171 | no run of edits changes a parameter key outside the visible panel |
| ConfigModal.QuotidienKeepsSameDay | src/components/features/solutions/StepConfigModal.tsx:80 | choosing daily timing hides the same-session checkbox but keeps its value, and the save still carries it |
| ConfigModal.ConfigureInList | src/components/features/solutions/StepConfigModal.tsx:40-49 | saving the dialog for a step of the list changes that step only; reopening the dialog on it shows the saved state |
| SolutionsApi.OrderedSteps | src/app/api/solutions/route.ts:33-35 | the steps come back as a permutation sorted by ascending `order` |
| SolutionsApi.Summarize | src/app/api/solutions/route.ts:44-53 | a solution is a favourite exactly when the user is among its favouriting users; the step count and the ordered step types match the stored steps |
| SolutionsApi.Summaries | src/app/api/solutions/route.ts:24-53 | every listed summary is the summary of a solution the user may see |
| SolutionsApi.SummariesComplete | src/app/api/solutions/route.ts:24-31 | every solution the user owns, and every template or public one, is listed |
| SolutionsApi.ListSolutions | src/app/api/solutions/route.ts:11-55 | 401 exactly without an e-mail; 404 exactly for an unknown e-mail; a list of summaries of visible solutions otherwise |
| SolutionsApi.StoreStep | src/app/api/solutions/route.ts:105-113 | the order, type, name and timing are copied; same-session is true only when sent as true; absent parameters and notes are stored as `{}` and "" |
| SolutionsApi.CreateSolution | src/app/api/solutions/route.ts:67-121 | 401 and 404 exactly as for the list, whatever the body; 400 exactly for a known user whose body lacks a name or steps; otherwise the solution is created for that user, with one stored row per body step in body order |
| SolutionsApi.ResponseSteps | src/app/api/solutions/route.ts:116-120 | the created solution's steps are returned as a permutation sorted by `order` |
| SolutionsApi.BodyOf | src/components/features/solutions/SolutionBuilder.tsx:117-128 | the request body carries the payload's name, indication and every step |
| SolutionsApi.SavedSolutionIsStored | src/app/api/solutions/route.ts:79-121 | a composer save from a known user is always created; its rows are the composer's steps in list order, numbered from 0 with the defaults filled in; the response returns them in that same order |
| SolutionList.FilterSolutions | src/app/cabine/solutions/page.tsx:91-106 | the visible list keeps list order and holds exactly the summaries matching the search and the tab |
| SolutionList.SearchIgnoresCase | src/app/cabine/solutions/page.tsx:92-94 | the search does not depend on the case of the typed text |
| SolutionList.EmptySearchShowsAll | src/app/cabine/solutions/page.tsx:91-106 | an empty search on the first tab shows every solution |
| SolutionList.MineAndTemplatesPartition | src/app/cabine/solutions/page.tsx:96-100 | the "mine" and "templates" tabs split the search matches between them |
| SolutionList.UniqueCategories | src/app/cabine/solutions/page.tsx:109-118 | each category is listed once, and exactly when some step type carries its prefix |
| SolutionList.UniqueCategoriesBound | src/app/cabine/solutions/page.tsx:109-118 | a solution shows at most four category icons |
| SolutionList.UniqueCategoriesOrder | src/app/cabine/solutions/page.tsx:110-117 | categories are listed in order of first appearance among the step types |
| SolutionList.ToggleFavorite | src/app/cabine/solutions/page.tsx:78-89 | a throwing request changes nothing; otherwise exactly the summaries with the id get the negated state, and the rest are untouched |
| SolutionList.ToggleIgnoresStatus | src/app/cabine/solutions/page.tsx:79-85 | an error status updates the list just as a success does |
| SolutionList.ToggleTwice | src/app/cabine/solutions/page.tsx:78-89 | two clicks on the star, each with the state it shows, restore the list |
| Products.FilterProducts | src/app/cabine/page.tsx:32-36 | the shown products keep table order and are exactly those matching both the search and the selected range |
| Products.NoGammeSearchOnly | src/app/cabine/page.tsx:34 | without a selected range only the search filters |
| Products.EmptySearchGammeOnly | src/app/cabine/page.tsx:32-36 | with an empty search only the range filters |
| Products.SearchIgnoresCategoryAndGamme | src/app/cabine/page.tsx:33 | the search looks at the product name only |
| Products.RefreshRange | src/app/cabine/page.tsx:19-36 | selecting REFRESH with no search shows the serum and the ampoule, so the heading counts 2 |
| Products.GammeBadge | src/app/cabine/page.tsx:157-161 | REFRESH is red, GLOW green and PURE blue, each exactly; every other range, known or not, is purple |
| Products.BadgeMatchesGamme | src/app/cabine/page.tsx:157-161 | every demo product's badge has the colour of its range's button |
| Products.BadgesDistinct | src/app/cabine/page.tsx:157-161 | the four ranges have four different badge colours |
| Navigation.NavItems | src/components/features/BottomNavigation.tsx:15-23 | the bar shows home, cabin and training first and the profile last; the manager link appears exactly for managers and administrators; no link appears twice |
| Navigation.DefaultRoleIsAssistant | src/components/features/BottomNavigation.tsx:12 | without a role the bar is an assistant's, with four links |
| Navigation.RootOnlyExact | src/components/features/BottomNavigation.tsx:29-30 | home is highlighted on the home page only |
| Navigation.NonSegmentPrefix | src/components/features/BottomNavigation.tsx:29-30 | highlighting compares characters, not path segments: `/cabinex` highlights Cabine |
| Navigation.AtMostOneActive | src/components/features/BottomNavigation.tsx:15-30 | for every role and path, at most one link is highlighted |
| Navigation.BuilderHighlightsCabine | src/components/features/BottomNavigation.tsx:29-30 | on the composer page only Cabine is highlighted, whatever the role |
| Formation.TotalProgress | src/app/formation/page.tsx:79-81 | the overall figure is the mean progress rounded half up, and `NaN` (none) exactly for an empty table |
| Formation.SumProgressBounds | src/app/formation/page.tsx:79-81 | percentages add up to between 0 and 100 per module |
| Formation.TotalProgressBounds | src/app/formation/page.tsx:79-81 | the overall figure is a percentage whenever every module's is |
| Formation.PageTotalProgress | src/app/formation/page.tsx:11-81 | the page's six modules add up to 165 and show 28 % |
| Formation.CompletedCount | src/app/formation/page.tsx:107 | the completed count never exceeds the number of modules |
| Formation.CompletedCountSplit | src/app/formation/page.tsx:107 | the completed and uncompleted counts add up to the number of modules |
| Formation.PageCompletedCount | src/app/formation/page.tsx:107 | the page shows one completed module |
| Formation.Tile | src/app/formation/page.tsx:123-134 | completion wins over locking, and locking over progress |
| Formation.ButtonLabel | src/app/formation/page.tsx:164-171 | locked modules have no button; otherwise the label is review, resume or start according to completion and progress |
| Formation.ButtonMatchesTile | src/app/formation/page.tsx:123-171 | on an open module the button agrees with the tile, and the progress bar shows exactly on unfinished ones |
| Ranking.Rank | src/app/manager/page.tsx:57 | the ranking has every position and lists points in non-increasing order |
| Ranking.RankIsPermutation | src/app/manager/page.tsx:57 | the ranking lists every member exactly once |
| Ranking.RankIsStable | src/app/manager/page.tsx:57 | members with equal points keep table order |
| Ranking.RankIdempotent | src/app/manager/page.tsx:57 | re-sorting the already sorted table on every render changes nothing |
| Ranking.PageRanking | src/app/manager/page.tsx:9-57 | the page ranks Julie, Marie, Sophie, Emma |
| Ranking.MedalAt | src/app/manager/page.tsx:62-66 | the first row gets gold, the second silver, the third bronze, each exactly, and all later rows none |
| Ranking.Rows | src/app/manager/page.tsx:57-68 | row i shows rank i+1, the i-th ranked member and the medal of position i, and every row but the last has a bottom border |
| Ranking.RowsOrdered | src/app/manager/page.tsx:57-68 | ranks increase down the card, points never do, and the plain rows are exactly those ranked beyond 3 |

## Left out

- Session lookup, the database and the network (`getServerSession`, Prisma, `fetch`) are parameters. The handlers' 500 path for a thrown exception is not modelled.
- The list query's `orderBy: { createdAt: "desc" }` is not modelled. The stored solutions are taken in the order the query returns them.
- The create body is modelled as typed JSON. A name or step list of another JSON type is out of scope. A falsy `sameDay` other than `false` or absent is out of scope. Non-string parameter values are out of scope.
- Drag sensors, the drag overlay, `handleDragStart` and `activeId` are display state of the drag library. `arrayMove` is modelled by its documented index shift.
- `generateId` (`Math.random`) is a parameter, and id collisions are not modelled. The uniqueness lemmas require the id to be fresh.
- Opening and closing the dialog (`setConfigStep`), navigation after a save (`router.push`) and the loading flags are UI state only.
- The PDF export and share buttons are left out: their handler only logs.
- `toLowerCase` and whitespace handling cover ASCII only.
- `parseInt` is exact on integers. Rounding beyond 2^53 is not modelled.
- `Math.round` of the mean progress is computed exactly on integers. It is not computed on IEEE doubles, which agree for the page's small values.
- Grouping.Bucket: groups every timing normally. The bucket object is a plain `{}`, so in JavaScript a timing naming an inherited property (`"constructor"`, `"toString"`, `"__proto__"`) finds a truthy value there and the `push` throws. The composer cannot produce such timings, since they come from the fixed timing list, so that failure is not modelled.
- The `Object.keys` order of the timing buckets is modelled as first appearance. Integer-like keys (a timing spelled `"7"`) would come first in JavaScript.
- The `StepType` enumeration is a parameter of the drag handler; the Prisma schema is not part of this model.
- Markup, styling, static pages and seed data are not part of this model. The other API routes are not part of this model either.
- SolutionsApi.Summaries: lists each summary as coming from a visible solution. Completeness is the separate lemma `SummariesComplete`. The position-by-position correspondence with the query result is not stated.
