# Sort preferences of the crypto dashboard

The dashboard's home page lists the top coins in the order the API returns
them. The repository also defines a sortable coin list and a set of sort
controls, two client components backed by a small store, but neither the
layout nor the pages (app/layout.tsx, app/page.tsx,
app/coin/[id]/page.tsx) render either of them. This project models that
sort-preference subsystem as defined:

- **The store** (`store.dfy`, module `Store`). The "crypto" slice holds
  `sortOrder` (ascending or descending) and `sortBy` (rank, price or 24h
  change). It starts as ascending by rank. Two reducers, `setSortOrder` and
  `setSortBy`, each overwrite one field in place. The pure function `Reduce`
  states what a reducer does. The class `CryptoSlice` holds the two mutable
  fields, and each of its methods is proved to change its state exactly as
  `Reduce` says.
- **The list** (`crypto_list.dfy`, module `CryptoList`). The list copies its
  input and sorts the copy. The comparator subtracts the selected key of the
  two coins and negates the difference for descending order. The runtime's
  sort is stable. The model sorts the fresh copy in place with an insertion
  sort that swaps two neighbours only when the comparator is positive. It is
  proved to return the input's coins in comparator order, with each group of
  equal-key coins in its input order. A separate lemma shows that these two
  properties fix the result completely. So the result is the same whatever
  stable algorithm the runtime uses. Each coin's 24h change is shown green
  with an up icon when it is strictly positive, and red with a down icon
  otherwise.
- **The controls** (`sort_controls.dfy`, module `SortControls`). The
  direction button toggles the order and is labelled with the current order.
  The three key buttons set the key, and exactly one of them, the current
  key's, is drawn highlighted.

The coin record is modelled with the fields the list reads: `rank` as an
integer, and `priceUsd` and `changePercent24Hr` as exact reals. In the
source these are decimal strings parsed with `Number(...)`; the model takes
them already parsed.

## Model

| member | source | states |
|---|---|---|
| `Store.CryptoSlice.constructor` | app/store/store.ts:11-15 | a new slice is ascending by rank, i.e. equals `InitialState` |
| `Store.CryptoSlice.SetSortOrder` | app/store/store.ts:22-24 | `sortOrder` becomes the payload, `sortBy` keeps its old value, and the new state is `Reduce` of the old one |
| `Store.CryptoSlice.SetSortBy` | app/store/store.ts:25-27 | `sortBy` becomes the payload, `sortOrder` keeps its old value, and the new state is `Reduce` of the old one |
| `Store.CryptoSlice.Dispatch` | app/store/store.ts:18-29 | dispatching either action moves the slice to `Reduce(old state, action)` |
| `Store.SetSortOrderFrame` | app/store/store.ts:22-24 | setSortOrder yields `sortOrder == p` and leaves `sortBy` unchanged |
| `Store.SetSortByFrame` | app/store/store.ts:25-27 | setSortBy yields `sortBy == p` and leaves `sortOrder` unchanged |
| `Store.ReduceIdempotent` | app/store/store.ts:22-27 | dispatching the same action twice gives the same state as dispatching it once |
| `Store.ReducersCommute` | app/store/store.ts:22-27 | setSortOrder then setSortBy gives the same state as the other order |
| `Store.ReduceAllLastWriterWins` | app/store/store.ts:22-27 | after any sequence of actions, each field holds the last payload written to it, or its starting value if none was; so a field only ever holds its initial value or a dispatched payload |
| `Store.LastSortOrder` | app/store/store.ts:7-7 | the last order written by a sequence of actions is either the starting value or the payload of one of them |
| `Store.LastSortBy` | app/store/store.ts:8-8 | the last key written by a sequence of actions is either the starting value or the payload of one of them |
| `CryptoList.CompareIsKeyDifference` | app/components/CryptoCurrencyList.tsx:22-30 | the comparator subtracts the rank, the price or the 24h change as `sortBy` says, and the descending comparator is the negation of the ascending one |
| `CryptoList.CompareZeroIffSameKey` | app/components/CryptoCurrencyList.tsx:20-30 | the comparator is zero exactly when the two keys are equal, and swapping its arguments negates it |
| `CryptoList.CompareChains` | app/components/CryptoCurrencyList.tsx:20-30 | comparisons add along a chain of three coins, so the comparator is a consistent (transitive) ordering |
| `CryptoList.SortedAscIsNonDecreasing` | app/components/CryptoCurrencyList.tsx:20-30 | a list in ascending comparator order is exactly a list non-decreasing in the selected key |
| `CryptoList.SortedDescIsNonIncreasing` | app/components/CryptoCurrencyList.tsx:30-30 | a list in descending comparator order is exactly a list non-increasing in the selected key |
| `CryptoList.SortCryptoList` | app/components/CryptoCurrencyList.tsx:19-31 | the sorted copy has the input's length and coins (as a multiset), is in comparator order, and keeps every group of equal-key coins in input order; it has no modifies clause, so the input array is untouched |
| `CryptoList.InsertionSort` | app/components/CryptoCurrencyList.tsx:19-19 | sorting the copy in place leaves it in comparator order, holding the same coins, with each equal-key group in its old order |
| `CryptoList.InsertStep` | app/components/CryptoCurrencyList.tsx:19-19 | one insertion extends the ordered prefix `a[..i + 1]` by one item; that prefix holds exactly the old prefix's items, everything after `i` is unchanged, and the whole array is a stable rearrangement of the old one |
| `CryptoList.SwapNeighboursKeepsGroups` | app/components/CryptoCurrencyList.tsx:19-19 | swapping two neighbours with different keys keeps the multiset and every equal-key group |
| `CryptoList.StableSortIsUnique` | app/components/CryptoCurrencyList.tsx:19-31 | two lists that are both in comparator order and have the same equal-key groups are equal, so the stable sort's result is unique |
| `CryptoList.UpExactlyWhenPositive` | app/components/CryptoCurrencyList.tsx:68-79 | a coin is green, and has the up icon, exactly when its change is strictly positive; zero or below is red and down; colour and icon agree |
| `CryptoList.UpCoinsAreContiguous` | app/components/CryptoCurrencyList.tsx:27-30 | in a list sorted by change, the up coins come first when descending and last when ascending |
| `SortControls.NextSortOrderSwaps` | app/components/SortControls.tsx:13-13 | toggling maps asc to desc and desc to asc, and never keeps the order |
| `SortControls.NextSortOrderInvolution` | app/components/SortControls.tsx:13-13 | toggling twice gives back the original order |
| `SortControls.ToggleKeepsSortBy` | app/components/SortControls.tsx:12-14 | the toggle's action changes the order and leaves `sortBy` unchanged |
| `SortControls.ToggleSortOrder` | app/components/SortControls.tsx:12-14 | the click handler sets the store's order to the other order and leaves its key unchanged |
| `SortControls.HandleSortByChange` | app/components/SortControls.tsx:16-18 | the key handler sets the store's key to exactly the chosen key and leaves its order unchanged |
| `SortControls.ExactlyOneKeyHighlighted` | app/components/SortControls.tsx:26-38 | of the three key buttons exactly one has the `default` variant, and a button has it exactly when it is the current key's |
| `SortControls.ChosenKeyIsHighlighted` | app/components/SortControls.tsx:16-40 | after a key button is clicked, that button is the highlighted one and the order is unchanged |
| `SortControls.SortOrderLabelMatches` | app/components/SortControls.tsx:51-61 | the button reads "Ascending" with an up arrow exactly when the order is ascending, otherwise "Descending"; toggling always changes the label |

## Left out

- Parsing with `Number(...)`: the numeric fields are taken as already-parsed exact numbers. A field that does not parse (NaN) is not modelled.
- Floating-point subtraction: the comparator's difference of two doubles is modelled as an exact real difference. For finite doubles the sign of a rounded difference equals the sign of the exact one, and only the sign affects the sort. For the same reason a descending comparison of equal keys gives `-0`, which the sort treats as equal; in the model it is simply `0`.
- The sort algorithm itself: the runtime uses its own stable algorithm, and the model uses an insertion sort. `CryptoList.StableSortIsUnique` shows that any stable sort gives the same list, so this choice loses nothing.
- The comparator's fallback `comparison = 0` for an unknown key cannot be reached, because `sortBy` is one of three values by its type. The model has no such branch.
- Number formatting with `Intl.NumberFormat`: currency and percent display depends on the locale. Only the sign rule for colour and icon is modelled.
- Redux wiring: `configureStore`, `useSelector`, `useDispatch`, Immer's draft proxies and the `RootState`/`AppDispatch` types are framework code. `ToggleSortOrder` and `HandleSortByChange` call the slice's setter directly for the dispatch.
- Rendering: JSX markup, CSS classes, cards, links and icon components. Only the variant, label, arrow, colour and trend that the markup selects are modelled.
- React re-rendering: the sorted list is recomputed on each render from the current store state. The model sorts once per call.
- The home page's network fetch of the top 20 coins (app/page.tsx), the layout and theme provider (app/layout.tsx), the footer and its current-year clock (components/shared/Footer.tsx), and the build configuration (next.config.ts): these are I/O and presentation glue.
- The coin detail page, its live price chart with the polling timer, its error and not-found views, and the two proxy API routes (app/coin/[id]/, app/api/) are not part of this model. They are network I/O, timers and rendering, outside the sort-preference core.
