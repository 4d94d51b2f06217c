# Portfolio site demo widgets, modelled in Dafny

The site is a single-page portfolio with two small demo applications and an animated
banner. This project models the three pieces of it that hold logic, each as the
component's own state and handlers:

- **Product catalog** (`src/components/Products.tsx`). The filter effect keeps the
  products that match a case-insensitive search over name, description and tags, the
  selected category (or `all`) and an inclusive price range. It then sorts them by
  the selected key (`price-low`, `price-high`, `rating`, `reviews`, or `featured` for
  any other value) with the stable `Array.prototype.sort`. A separate favourites toggle
  adds or removes a product id.
- **Task manager** (`src/components/TodoApp.tsx`). `addTask` rejects a title that is
  blank after `trim()` and otherwise prepends a new, uncompleted task and resets the
  form. `toggleTask`, `deleteTask` and `updateTask` map or filter the list by id. The
  list shown is a four-way filter, and four counters summarise the list.
- **Typing banner** (`src/components/Hero.tsx`). On each timer tick `handleTyping`
  types the current role one character at a time. A delayed callback switches it to
  deleting, it deletes back to empty, and then moves on to the next role.

Files:

- `option.dfy` (`Optional`): an optional value, for properties that may be `undefined`.
- `seqs.dfy` (`Seqs`): an order-preserving `Filter` with its subsequence, multiplicity
  and counting lemmas. Every `.filter` this model covers is built on it:
  Products.tsx:173 and 210, and TodoApp.tsx:118, 132 and 144-146.
- `text.dfy` (`Text`): `toLowerCase` (ASCII letters), `includes` (substring search)
  and `trim`. Each comes with a lemma saying what it means.
- `catalog.dfy` (`Catalog`, `SampleCatalog`): the catalog filter and sort, favourites,
  and the eight-product sample catalog with two worked views.
- `tasks.dfy` (`Tasks`): the task list transformations as functions, and the class
  `TaskBoard` whose handlers replace its `tasks` and `draft` slots with them.
- `typing.dfy` (`Typing`): the tick function `Tick` with its lemmas, and the class
  `Typewriter` whose `Step` and `StartDeleting` update the four state slots.

Modelling choices:

- Ratings are integers in tenths of a star, and prices are whole currency units. Both
  are exact for the sample catalog.
- Every comparator in the sort `switch` has the form `K(a) - K(b)`, so each sort is
  modelled as a stable sort by ascending `K`. For `featured`, `K` is 0 for featured
  products and 1 for the rest.
- The sort runs on the freshly built `filtered` array, which nothing else references.
  It is therefore modelled as a function on sequences.
- Task ids (`Date.now()`) and the current time (`new Date()`) are parameters. Ids come
  from the clock and may repeat, so they are not assumed unique: toggle, update and
  delete act on every task with the given id.
- A task's `category` and `description` are plain strings.

## Model

| member | source | states |
|---|---|---|
| `Catalog.FilterProductsSpec` | src/components/Products.tsx:173-182 | The filtered list is an order-preserving subsequence of the catalog. Every kept product matches. Each matching product occurs exactly as often as in the catalog, so nothing is added or duplicated. |
| `Catalog.MatchesSearchSpec` | src/components/Products.tsx:174-176 | A product matches the search exactly when the lower-cased term occurs in its lower-cased name, description or some tag. The empty term matches every product. Lower-casing the term first changes nothing. |
| `Catalog.CategoryAndPriceSpec` | src/components/Products.tsx:178-179 | Every kept product lies in the price range. With a named category, every kept product is in that category. With `all`, the filter equals filtering by search and price alone. A product priced exactly at either end of a non-empty range is kept when it passes the search and category tests. |
| `Catalog.ParseSortKey` | src/components/Products.tsx:185-202 | The sort key is `featured` exactly when the selector value is none of `price-low`, `price-high`, `rating` and `reviews`. |
| `Catalog.SortByPermutation` | src/components/Products.tsx:185-202 | Sorting yields a permutation of the filtered list. |
| `Catalog.SortBySorted` | src/components/Products.tsx:185-202 | Sorting yields a list that is ordered by the selected key. |
| `Catalog.SortByStable` | src/components/Products.tsx:185-202 | The sort is stable: for every key value, the products with that key keep their relative order. |
| `Catalog.SortOrders` | src/components/Products.tsx:186-201 | After `price-low` prices are non-decreasing. After `price-high`, `rating` and `reviews` that field is non-increasing. After `featured`, no non-featured product precedes a featured one. |
| `Catalog.FeaturedPartition` | src/components/Products.tsx:198-201 | The featured sort is a stable partition: all featured products in input order, followed by all others in input order. |
| `Catalog.VisibleProductsSpec` | src/components/Products.tsx:172-205 | The displayed list holds exactly the matching catalog entries, each as often as the catalog does. It is ordered by the selected key and stable with respect to catalog order. |
| `Catalog.ToggleFavoriteSpec` | src/components/Products.tsx:207-213 | An absent id is appended at the end. A present id is removed everywhere, while the other ids keep their order and multiplicity. |
| `Catalog.ToggleFavoriteTwice` | src/components/Products.tsx:207-213 | Toggling an id that is not in the list twice restores the list. |
| `SampleCatalog.ElectronicsByPriceHigh` | src/components/Products.tsx:41-148 | On the sample catalog, the view "electronics, price high to low" shows ids 6, 1, 2 (prices 599, 299, 249). |
| `SampleCatalog.InitialViewOrder` | src/components/Products.tsx:30-33 | With the initial view (empty search, all categories, 0 to 1000, featured), the sample catalog shows ids 1, 2, 6, 3, 4, 5, 7, 8: featured products first, catalog order within each group. |
| `Text.IncludesIff` | src/components/TodoApp.tsx:133-134 | `includes` holds exactly when the needle occurs at some index of the haystack. |
| `Text.TrimEmptyIff` | src/components/TodoApp.tsx:75 | `trim()` is empty exactly when every character is ECMAScript whitespace or a line terminator. |
| `Tasks.AddedSpec` | src/components/TodoApp.tsx:74-95 | A blank title leaves the list unchanged. Otherwise the new task is the only addition, at the front. It has the given id and time, `completed = false`, and the form's untrimmed title and other fields. The old tasks follow it unchanged and in order. |
| `Tasks.TaskBoard.AddTask` | src/components/TodoApp.tsx:74-103 | Reports whether the title was accepted. A rejected add changes no state. An accepted one prepends the task and resets the form to empty title and description, `personal`, `medium` and no due date. The stored-title invariant `Valid()` is kept. |
| `Tasks.TaskBoard.constructor` | src/components/TodoApp.tsx:23-36 | Starts with no tasks, the empty form and the filter that shows everything, which satisfies `Valid()`: no stored task has a blank title. |
| `Tasks.AddedKeepsTitles` | src/components/TodoApp.tsx:75-95 | If no stored title is blank before `addTask`, none is after: the validation admits only a title whose `trim()` is non-empty. |
| `Tasks.ToggledKeepsTitles` | src/components/TodoApp.tsx:111-115 | Toggling keeps every stored title non-blank. |
| `Tasks.DeletedKeepsTitles` | src/components/TodoApp.tsx:117-118 | Deleting keeps every stored title non-blank. |
| `Tasks.UpdatedKeepsTitles` | src/components/TodoApp.tsx:125-128 | An update whose patch has no title, or a non-blank one, keeps every stored title non-blank. |
| `Tasks.UpdatedCanBlankTitle` | src/components/TodoApp.tsx:125-128 | `updateTask` does not validate: patching task `"1"` titled `"x"` with title `""` stores a blank title. |
| `Tasks.Toggled` | src/components/TodoApp.tsx:111-115 | Length and order are kept. `completed` flips on exactly the tasks with the id, and no other field of any task changes. |
| `Tasks.ToggledTwice` | src/components/TodoApp.tsx:111-115 | Toggling the same id twice is the identity. |
| `Tasks.ToggledAbsent` | src/components/TodoApp.tsx:111-115 | Toggling an id that no task has changes nothing. |
| `Tasks.TaskBoard.ToggleTask` | src/components/TodoApp.tsx:111-115 | Replaces the list with its toggled version. The form and the filter are untouched, and `Valid()` is kept. |
| `Tasks.DeletedSpec` | src/components/TodoApp.tsx:117-118 | No task with the id remains. Every other task keeps its order and multiplicity. An absent id is a no-op. |
| `Tasks.TaskBoard.DeleteTask` | src/components/TodoApp.tsx:117-118 | Replaces the list with its filtered version. The form and the filter are untouched, and `Valid()` is kept. |
| `Tasks.PatchedSpec` | src/components/TodoApp.tsx:127 | Spreading a patch over a task twice is spreading it once. A patch without fields changes nothing. |
| `Tasks.Updated` | src/components/TodoApp.tsx:125-128 | Length and order are kept. Tasks with the id receive the patch; all others are unchanged. |
| `Tasks.UpdatedSpec` | src/components/TodoApp.tsx:125-128 | Updating twice with the same patch equals updating once. An absent id or an empty patch changes nothing. |
| `Tasks.TaskBoard.UpdateTask` | src/components/TodoApp.tsx:125-128 | Replaces the list with its updated version. The form and the filter are untouched. `Valid()` is kept when the patch has no title or a non-blank one; a blank one can break it. |
| `Tasks.VisibleSpec` | src/components/TodoApp.tsx:132-140 | The shown tasks are an order-preserving subsequence. They are exactly the tasks matching search (title or description), category, priority and completion, each as often as in the list. With show-completed off none is completed. The initial filter shows every task. |
| `Tasks.TaskBoard.EditDraft` | src/components/TodoApp.tsx:249-280 | A form edit replaces the draft, leaves the tasks and the filter unchanged, and keeps `Valid()`. |
| `Tasks.TaskBoard.SetFilter` | src/components/TodoApp.tsx:187-220 | The search box, the two selects and the show-completed button replace the filter, leave the tasks and the draft unchanged, and keep `Valid()`. |
| `Tasks.TaskBoard.FilteredTasks` | src/components/TodoApp.tsx:132-140 | The list shown from the component's state is an order-preserving subsequence of its tasks. It holds each task that matches the current filter as often as the list does, and no other task. With show-completed off it has no completed task. |
| `Tasks.TaskBoard.CurrentStats` | src/components/TodoApp.tsx:142-147 | From the component's state: `total` is the number of tasks, `total = completed + pending`, and `overdue <= pending`. |
| `Tasks.StatsSpec` | src/components/TodoApp.tsx:142-147 | `total = completed + pending` and `overdue <= pending`. |
| `Tasks.StatsAfterAdd` | src/components/TodoApp.tsx:142-147 | A successful add raises `total` and `pending` by one and leaves `completed` unchanged. |
| `Typing.TickValid` | src/components/Hero.tsx:22-41 | After any tick the text is a prefix of `roles[loopNum % roles.length]`. The delayed switch to deleting keeps that invariant. |
| `Typing.TickSpec` | src/components/Hero.tsx:23-40 | Typing appends exactly the role's next character. Deleting drops exactly the last character. A fully typed role stays unchanged and is not switched to deleting by a tick. An emptied role clears `isDeleting` and advances `loopNum` by exactly one. `typingSpeed` becomes 50 after a deleting tick and 150 otherwise. `loopNum` never decreases. |
| `Typing.TypesOut` | src/components/Hero.tsx:27-33 | From a typed prefix of length `j`, `len - j` ticks spell out the whole role, still typing and on the same role. The speed is 150 after any typing tick. |
| `Typing.DeletesOut` | src/components/Hero.tsx:27-39 | While deleting from a prefix of length `j`, `j + 1` ticks end with empty text, typing mode and the next role. |
| `Typing.Lap` | src/components/Hero.tsx:22-45 | A lap is: type the role, one more tick on the fully typed role (which only schedules the callback and leaves the state unchanged), the callback, then delete the role. It returns to empty text on role `loopNum + 1`. |
| `Typing.Typewriter.constructor` | src/components/Hero.tsx:10-13 | Starts with empty text, typing, `loopNum = 0` and speed 150, which satisfies the prefix invariant. |
| `Typing.Typewriter.Step` | src/components/Hero.tsx:23-41 | One `handleTyping` tick updates the four slots as `Tick` does and establishes the prefix invariant. |
| `Typing.Typewriter.StartDeleting` | src/components/Hero.tsx:35-36 | The delayed callback sets `isDeleting`, changes nothing else and keeps the prefix invariant. |

## Left out

- The shopping cart. `addToCart`, `updateQuantity` and the totals live in a cart context module that is not part of this model. The catalog only calls `addToCart`.
- Task persistence: reading and writing `localStorage`, `JSON.parse`, and reviving dates on load. These are browser I/O.
- Parsing of the due-date input. The form's due date is modelled as an already-parsed optional timestamp, so an unparseable date string (JavaScript's Invalid Date) is not represented.
- Text.Lower: lower-cases ASCII letters only. JavaScript's `toLowerCase` applies the full Unicode case mapping, which is a library table.
- Floating-point arithmetic: fractional ratings and prices, the discount percentage and the star rendering. Ratings are exact integers in tenths.
- Timer scheduling. The 150 ms / 50 ms tick and the one-second delay before deleting are modelled as two explicit events, `Step` and `StartDeleting`. No claim is made about their interleaving in real time.
- The effect in the banner also depends on the `roles` array, which is rebuilt on every render. Re-renders that restart the tick timer are not modelled.
- Tasks.TaskBoard.UpdateTask: it performs no title validation, so a patch with a blank title stores a task with a blank title and breaks `Valid()` (shown by `Tasks.UpdatedCanBlankTitle`); the invariant is promised only for patches without a title or with a non-blank one. Nothing in TodoApp.tsx calls `updateTask`; the edit button at line 354 only sets `editingTask`. `TaskPatch` models each field as present or absent, so a field present with the value `undefined` (for example `{title: undefined}`, which the spread would copy over the title) is not represented.
- Tasks.Stats: the overdue count reads the clock once, as the parameter `now`, for all tasks. The source calls `new Date()` inside the filter callback (TodoApp.tsx:146), once per candidate task, so a count taken across a clock tick may compare different tasks against different instants.
- UI-only state: toasts, `isAddingTask`, `editingTask`, `showFilters`, the navigation flags, scroll-spy, the simulated contact form, and the static sections.
- The in-place sort is not modelled as an update of the array in place. `filtered` is a fresh local array that nothing else references, so only its final contents are observable, and those are modelled.
