# Cruise listing: sort, page and page-control model

A Dafny model of the logic of a small cruise-listing page. The page fetches a
list of sailings once. It keeps a sort field, a sort order and a current page,
sorts a copy of the list with a comparator, and shows ten sailings per page.
A page control renders a window of at most five page numbers, Previous/Next
buttons, and an ellipsis with a last-page button.

Modules, one per concern of the two core files:

- `Sailings` (`sailings.dfy`): the sailing record and the comparator. The
  sorted copy is a stable insertion sort, `SortSailings`. Its contract says
  the result is a permutation of the input, ordered by the comparator, and
  keeps every group of ties in input order. `StableSortIsUnique` shows that
  any list with these three properties is this same result. So the model
  does not depend on which stable algorithm the JavaScript engine uses.
- `Paging` (`paging.dfy`): `Array.prototype.slice` with its negative-index
  rule, the items of a page, and how pages cover the list.
- `SortOption` (`sort_option.dfy`): `split('-')` for one separator character,
  its inverse `Join`, and the select value `${sortBy}-${sortOrder}`.
- `Pagination` (`pagination.dfy`): the page count, and the page control
  computed as written. `Render` does the pull-back adjustment and the push
  loop. It is proved equal to `View`, a reference definition that clamps the
  window start into `[1, max(1, totalPages - 4)]`. `Click` gives the page
  each button hands to `paginate`.
- `ListingView` (`listing_view.dfy`): the class `Home` with the fields the
  page's setters change, and its handlers as methods. Each handler is
  specified by a function on `ViewState`.
- `Wrappers` (`wrappers.dfy`): `Option`, `Min`, `Max`.

The model follows the code in three places where a reader might expect otherwise:

- `sortBy` and `sortOrder` are arbitrary strings, not closed enumerations.
  The comparator tests only `sortOrder === 'asc'`, so every other order
  sorts descending.
- An option without `-` leaves `sortOrder` as JavaScript's `undefined`. The
  model writes this as the string `"undefined"`. That is what the select
  value then shows, and the comparator treats it like any other non-`"asc"`
  order.
- A page number below 1 is not always empty. `slice` counts negative bounds
  back from the end of the list, so page -1 of 25 sailings shows items 5 to
  14 (`NegativePageCountsFromTheEnd`). Page 0 is empty. The user interface
  never asks for such a page (`UserActionsKeepPageInRange`).

## Model

| member | source | states |
|---|---|---|
| Sailings.Compare | src/app/page.tsx:75-86 | the comparator, branch for branch, always returns the rank of its first argument minus the rank of its second (key for "asc", negated key otherwise, 0 for an unknown field) |
| Sailings.SortSailings | src/app/page.tsx:75-86 | the sorted copy has the input's length, is a permutation of it, is ordered by the comparator, and keeps the input order within every group of equal rank (stability) |
| Sailings.StableSortIsUnique | src/app/page.tsx:75-86 | any permutation of the list that is ordered by the comparator and keeps every group of ties in input order equals SortSailings's result |
| Sailings.UnrecognisedSortByKeepsOrder | src/app/page.tsx:85 | when sortBy is none of price, departureDate, duration, the comparator returns 0 and the sorted copy equals the list |
| Sailings.SortedByKey | src/app/page.tsx:76-83 | for price, departureDate (by parsed timestamp) and duration, the sorted copy is non-decreasing in that key for "asc" and non-increasing for any other order |
| Sailings.EqualKeysKeepInputOrder | src/app/page.tsx:75-86 | for any list and any key value, the sailings with that key appear in the sorted copy in their input order, for ascending and descending alike |
| Sailings.EqualKeyPairStaysInOrder | src/app/page.tsx:75-86 | example: two sailings with equal keys come out as [a, b], for ascending and descending alike |
| Sailings.DescendingIsNotReversedAscending | src/app/page.tsx:77 | with a price tie, price-asc and price-desc both give [a, b], which is not the reverse of [a, b] |
| Paging.Slice | src/app/page.tsx:91 | for non-negative bounds, slice is the run between the bounds clamped to the list's length; negative bounds within the list count back from its end; a start before the list's beginning is clamped to 0, and so is an end before it; an end of 0 gives nothing |
| Paging.CurrentItems | src/app/page.tsx:88-91 | a page has at most ten items, all from the list; for page p >= 1 it is items (p-1)*10 up to min(p*10, n), empty exactly when (p-1)*10 >= n; page 0 is empty |
| Paging.PagePastTheEndIsEmpty | src/app/page.tsx:89-91 | a page beyond the last page gives an empty list, not an error |
| Paging.NegativePageCountsFromTheEnd | src/app/page.tsx:89-91 | with 25 items, page -1 shows items 5 to 14, following slice's negative indices |
| Paging.AllPagesGiveTheList | src/app/page.tsx:89-91 | pages 1 to ceil(n/10), read one after another, give exactly the sorted list |
| Paging.PagesInRangeAreFilled | src/app/page.tsx:89-91 | every page from 1 to totalPages holds between one and ten items, so the last page is never empty |
| SortOption.Split | src/app/page.tsx:98 | split gives at least one piece, and no piece contains the separator |
| SortOption.JoinSplit | src/app/page.tsx:98 | joining the pieces of split with the separator gives back the string |
| SortOption.ParseOption | src/app/page.tsx:98 | the field never contains '-'; an option without '-' becomes the field with an undefined order |
| SortOption.SelectValue | src/app/page.tsx:148 | the select value is sortBy, then '-', then sortOrder; ParseSelectValue and OptionsRoundTrip state that splitting it gives the pair back |
| SortOption.ParseSelectValue | src/app/page.tsx:148 | for a field and an order without '-', splitting `${field}-${order}` gives back the pair |
| SortOption.OptionsRoundTrip | src/app/page.tsx:151-156 | each of the six options splits into a known field and "asc" or "desc", and writing that pair back gives the option |
| ListingView.Home.constructor | src/app/page.tsx:30-35 | the initial view: no sailings, sorted by price ascending, page 1 |
| ListingView.Home.ReceiveResults | src/app/page.tsx:57-58 | a successful fetch replaces the list and leaves sort and page as they were |
| ListingView.Home.Paginate | src/app/page.tsx:94 | sets the page to the requested number verbatim, without clamping; nothing else changes |
| ListingView.Home.HandleSortChange | src/app/page.tsx:97-101 | sets sortBy and sortOrder from the split option and leaves the page and the list as they were |
| ListingView.Home.HandleResetFilters | src/app/page.tsx:104-108 | sets price, asc, page 1; the list is kept |
| ListingView.Home.SortedSailings | src/app/page.tsx:75 | the sorted copy is a permutation of the fetched sailings, is ordered by the current comparator, and keeps every group of ties in the fetched order |
| ListingView.Home.CurrentItems | src/app/page.tsx:88-91 | at most ten cards, each a fetched sailing; for page p >= 1, items (p-1)*10 up to min(p*10, n) of the sorted copy |
| ListingView.Home.ShowsPagination | src/app/page.tsx:175 | the page control is rendered exactly when there are at least two pages |
| ListingView.ResetIsIdempotent | src/app/page.tsx:104-108 | reset gives (price, asc, 1) from any state, and a second reset changes nothing |
| ListingView.SortChangeKeepsPage | src/app/page.tsx:97-101 | a sort change keeps the page index; re-selecting the option the selector shows leaves the state unchanged |
| ListingView.ChosenOptionIsShown | src/app/page.tsx:148-156 | choosing any of the six options sets a known field and asc or desc, and the selector then shows that option |
| ListingView.UserActionsKeepPageInRange | src/app/page.tsx:175-182 | the initial page, a reset, a sort change and every control click that calls paginate keep the page within [1, max(1, totalPages)] |
| ListingView.InRangePageIsFilled | src/app/page.tsx:88-91 | on a page in range the cards are that page's run of the sorted list, one to ten of them |
| Pagination.TotalPages | src/components/Pagination.tsx:10 | the page count is ceil(totalItems / itemsPerPage): it holds every item, and one page fewer would not |
| Pagination.WindowStart | src/components/Pagination.tsx:13-18 | the window starts at page 1 or later, no later than the last page when there is one, no later than a current page >= 1, and at page 1 when there are no pages |
| Pagination.WindowEnd | src/components/Pagination.tsx:13-18 | 1 <= start <= end <= totalPages with min(5, totalPages) pages when totalPages >= 1; never more than five pages; an in-range current page lies inside; no pages gives start 1, end 0 |
| Pagination.Render | src/components/Pagination.tsx:8-75 | the pull-back adjustment and the push loop produce exactly the reference control: its window, the consecutive page numbers, the ellipsis and last-page flags and the disabled flags |
| Pagination.Click | src/components/Pagination.tsx:28-74 | the page each onClick handler passes to paginate: Previous only when currentPage > 1, a rendered page number, the last page when its button is shown, Next only when currentPage < totalPages; ClicksStayInRange and GuardsMatchDisabled state what this guarantees |
| Pagination.PageNumbersAreTheWindow | src/components/Pagination.tsx:20-22 | the page numbers are startPage, startPage+1, ... within [1, totalPages], min(5, totalPages) of them, and none exactly when there are no items |
| Pagination.CurrentPageIsShown | src/components/Pagination.tsx:13-22 | an in-range current page is one of the rendered page numbers |
| Pagination.LastPageButtonIffNotInWindow | src/components/Pagination.tsx:58-70 | the ellipsis and the last-page button appear together, exactly when the last page is not among the page numbers |
| Pagination.ClicksStayInRange | src/components/Pagination.tsx:28-74 | from an in-range page, Previous, Next, a page button and the last-page button only ask for pages in [1, totalPages] |
| Pagination.GuardsMatchDisabled | src/components/Pagination.tsx:28-75 | for an in-range page, Previous and Next call paginate exactly when they are not disabled |

## Left out

- The fetch in `useEffect`, the loading and error flags, and the spinner and error screens (src/app/page.tsx:39-72, 110-127). These are network I/O and an async lifecycle. Only the successful outcome is modelled, as `Home.ReceiveResults`.
- The proxy route (src/app/api/sailings/route.ts). It is an HTTP pass-through with no logic.
- The date formatter (src/utils/formatters.ts), the card (src/components/CruiseCard.tsx) and the unused sort buttons (src/components/SortOptions.tsx). They are presentation only.
- JSX markup, CSS classes and console logging.
- Date parsing, `new Date(s).getTime()`. It is the parameter `timestamp: string -> int`, so an invalid date string giving NaN is not modelled.
- Prices, durations and ratings in floating point. Prices and durations are integers, so the comparator's subtractions cannot overflow or give NaN here.
- Sailings.SortSailings: models the engine's sort as a stable insertion sort. This is safe because `StableSortIsUnique` shows every stable sort with this comparator gives the same list.
- Paging.CurrentItems: page numbers are integers. A fractional page, which `paginate` would accept, is not modelled.
- Pagination.TotalPages: requires a positive `itemsPerPage`. The page always passes 10, so the `Infinity`/`NaN` of a zero divisor is not modelled.
- React batches the setters of one handler into a single re-render. Each handler is therefore modelled as one atomic update of the view state.
