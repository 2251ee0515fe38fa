/**
 The sort controls of the coin list: three key buttons (Rank, Price,
 Change %), the one for the current key highlighted, and a direction button
 that flips the order and is labelled with the current one. The handlers
 only dispatch one store action each.
 */
module SortControls {
  import opened Store

  /** The order the direction button asks for: the other one. */
  function NextSortOrder(sortOrder: SortOrder): SortOrder
  {
    if sortOrder == Asc then Desc else Asc
  }

  /** The toggle maps ascending to descending and descending to ascending. */
  lemma NextSortOrderSwaps(sortOrder: SortOrder)
    ensures NextSortOrder(Asc) == Desc && NextSortOrder(Desc) == Asc
    ensures NextSortOrder(sortOrder) != sortOrder
  {
  }

  /** Toggling twice gives back the order one started with. */
  lemma NextSortOrderInvolution(sortOrder: SortOrder)
    ensures NextSortOrder(NextSortOrder(sortOrder)) == sortOrder
  {
  }

  /** Toggling dispatches setSortOrder alone: the key is untouched. */
  lemma ToggleKeepsSortBy(s: CryptoState)
    ensures Reduce(s, SetSortOrder(NextSortOrder(s.sortOrder))).sortBy == s.sortBy
    ensures Reduce(s, SetSortOrder(NextSortOrder(s.sortOrder))).sortOrder != s.sortOrder
  {
  }

  /** The direction button's click handler. */
  method ToggleSortOrder(store: CryptoSlice)
    modifies store
    ensures store.sortOrder == NextSortOrder(old(store.sortOrder))
    ensures store.sortBy == old(store.sortBy)
  {
    store.SetSortOrder(NextSortOrder(store.sortOrder));
  }

  /** A key button's click handler: sets the key to `value` and nothing else. */
  method HandleSortByChange(store: CryptoSlice, value: SortBy)
    modifies store
    ensures store.sortBy == value
    ensures store.sortOrder == old(store.sortOrder)
  {
    store.SetSortBy(value);
  }

  /** A key button is drawn filled (`Default`) or in outline. */
  datatype ButtonVariant = Default | Outline

  /** The key buttons, in the order they are rendered. */
  const KeyButtons: seq<SortBy> := [Rank, Price, Change]

  /** The variant of the button for key `button` while the list is sorted by `sortBy`. */
  function KeyButtonVariant(sortBy: SortBy, button: SortBy): ButtonVariant
  {
    if sortBy == button then Default else Outline
  }

  /** The variants of the key buttons, in rendering order. */
  function KeyButtonVariants(sortBy: SortBy): (vs: seq<ButtonVariant>)
    ensures |vs| == |KeyButtons|
  {
    [KeyButtonVariant(sortBy, Rank), KeyButtonVariant(sortBy, Price), KeyButtonVariant(sortBy, Change)]
  }

  /** How many of `vs` are drawn filled. */
  function CountDefault(vs: seq<ButtonVariant>): nat
  {
    if vs == [] then 0 else (if vs[0] == Default then 1 else 0) + CountDefault(vs[1..])
  }

  /**
   Exactly one key button is highlighted, and it is the button of the
   current key.
   */
  lemma ExactlyOneKeyHighlighted(sortBy: SortBy)
    ensures CountDefault(KeyButtonVariants(sortBy)) == 1
    ensures forall i :: 0 <= i < |KeyButtons| ==> (KeyButtonVariants(sortBy)[i] == Default <==> KeyButtons[i] == sortBy)
  {
  }

  /** Choosing a key highlights that key's button, whatever was chosen before. */
  lemma ChosenKeyIsHighlighted(s: CryptoState, value: SortBy)
    ensures KeyButtonVariant(Reduce(s, SetSortBy(value)).sortBy, value) == Default
    ensures Reduce(s, SetSortBy(value)).sortOrder == s.sortOrder
  {
  }

  /** The arrow drawn on the direction button. */
  datatype ArrowIcon = ArrowUp | ArrowDown

  /** The direction button's text. */
  function SortOrderLabel(sortOrder: SortOrder): string
  {
    if sortOrder == Asc then "Ascending" else "Descending"
  }

  /** The direction button's arrow. */
  function SortOrderArrow(sortOrder: SortOrder): ArrowIcon
  {
    if sortOrder == Asc then ArrowUp else ArrowDown
  }

  /**
   The button reads "Ascending" with an up arrow exactly when the order is
   ascending, and "Descending" with a down arrow otherwise; toggling always
   changes the label.
   */
  lemma SortOrderLabelMatches(sortOrder: SortOrder)
    ensures SortOrderLabel(sortOrder) == "Ascending" <==> sortOrder == Asc
    ensures SortOrderLabel(sortOrder) == "Descending" <==> sortOrder == Desc
    ensures SortOrderArrow(sortOrder) == ArrowUp <==> sortOrder == Asc
    ensures SortOrderLabel(NextSortOrder(sortOrder)) != SortOrderLabel(sortOrder)
  {
  }
}
