/**
 The global sort-preference store of the dashboard: a single slice named
 "crypto" that holds which key the coin list is sorted by and in which
 direction, and two reducers that each overwrite one of the two fields.

 The reducer semantics is given once, as the pure function Reduce; the class
 CryptoSlice is the mutable slice the reducers update in place, and each of
 its methods is proved to move its state exactly as Reduce says.
 */
module Store {

  /** The direction of the list: ascending or descending. */
  datatype SortOrder = Asc | Desc

  /** The key the list is sorted by: market-cap rank, USD price or 24h change. */
  datatype SortBy = Rank | Price | Change

  /** The slice state: one value of each enumeration, nothing else. */
  datatype CryptoState = CryptoState(sortOrder: SortOrder, sortBy: SortBy)

  /** The two actions the slice accepts, each with its payload. */
  datatype Action = SetSortOrder(order: SortOrder) | SetSortBy(key: SortBy)

  /** The state the store starts in: ascending by rank. */
  const InitialState: CryptoState := CryptoState(Asc, Rank)

  /** The slice reducer: each action overwrites the one field it names. */
  function Reduce(s: CryptoState, a: Action): CryptoState
  {
    match a
    case SetSortOrder(p) => s.(sortOrder := p)
    case SetSortBy(p) => s.(sortBy := p)
  }

  /** The state after dispatching the actions in `acts` in order, starting from `s`. */
  function ReduceAll(s: CryptoState, acts: seq<Action>): CryptoState
  {
    if acts == [] then s else Reduce(ReduceAll(s, acts[..|acts| - 1]), acts[|acts| - 1])
  }

  /**
   The payload of the last SetSortOrder action in `acts`, or `default` when
   there is none; it is always either `default` or some action's payload.
   */
  function LastSortOrder(acts: seq<Action>, default: SortOrder): (r: SortOrder)
    ensures r == default || SetSortOrder(r) in acts
  {
    if acts == [] then default
    else match acts[|acts| - 1]
      case SetSortOrder(p) => p
      case SetSortBy(_) =>
        var r := LastSortOrder(acts[..|acts| - 1], default);
        assert r != default ==> acts[..|acts| - 1] <= acts;
        r
  }

  /**
   The payload of the last SetSortBy action in `acts`, or `default` when
   there is none; it is always either `default` or some action's payload.
   */
  function LastSortBy(acts: seq<Action>, default: SortBy): (r: SortBy)
    ensures r == default || SetSortBy(r) in acts
  {
    if acts == [] then default
    else match acts[|acts| - 1]
      case SetSortBy(p) => p
      case SetSortOrder(_) =>
        var r := LastSortBy(acts[..|acts| - 1], default);
        assert r != default ==> acts[..|acts| - 1] <= acts;
        r
  }

  /** setSortOrder sets sortOrder to its payload and leaves sortBy alone. */
  lemma SetSortOrderFrame(s: CryptoState, p: SortOrder)
    ensures Reduce(s, SetSortOrder(p)).sortOrder == p
    ensures Reduce(s, SetSortOrder(p)).sortBy == s.sortBy
  {
  }

  /** setSortBy sets sortBy to its payload and leaves sortOrder alone. */
  lemma SetSortByFrame(s: CryptoState, p: SortBy)
    ensures Reduce(s, SetSortBy(p)).sortBy == p
    ensures Reduce(s, SetSortBy(p)).sortOrder == s.sortOrder
  {
  }

  /** Dispatching the same action twice has the effect of dispatching it once. */
  lemma ReduceIdempotent(s: CryptoState, a: Action)
    ensures Reduce(Reduce(s, a), a) == Reduce(s, a)
  {
  }

  /** The two reducers commute: either dispatch order gives the same state. */
  lemma ReducersCommute(s: CryptoState, o: SortOrder, b: SortBy)
    ensures Reduce(Reduce(s, SetSortOrder(o)), SetSortBy(b))
         == Reduce(Reduce(s, SetSortBy(b)), SetSortOrder(o))
  {
  }

  /**
   After any sequence of actions each field holds the payload of the last
   action that wrote it, or its earlier value when no action wrote it; so
   each field only ever holds its initial value or a dispatched payload.
   */
  lemma {:induction false} ReduceAllLastWriterWins(s: CryptoState, acts: seq<Action>)
    ensures ReduceAll(s, acts) == CryptoState(LastSortOrder(acts, s.sortOrder), LastSortBy(acts, s.sortBy))
    ensures ReduceAll(s, acts).sortOrder == s.sortOrder || SetSortOrder(ReduceAll(s, acts).sortOrder) in acts
    ensures ReduceAll(s, acts).sortBy == s.sortBy || SetSortBy(ReduceAll(s, acts).sortBy) in acts
  {
    if acts != [] {
      ReduceAllLastWriterWins(s, acts[..|acts| - 1]);
    }
  }

  /** The mutable "crypto" slice: the two fields the reducers assign in place. */
  class CryptoSlice {
    var sortOrder: SortOrder
    var sortBy: SortBy

    /** The slice as a value. */
    function State(): CryptoState
      reads this
    {
      CryptoState(sortOrder, sortBy)
    }

    /** A new slice holds the initial state: ascending by rank. */
    constructor ()
      ensures sortOrder == Asc && sortBy == Rank
      ensures State() == InitialState
    {
      sortOrder := Asc;
      sortBy := Rank;
    }

    /** The setSortOrder reducer: only sortOrder changes, to the payload. */
    method SetSortOrder(p: SortOrder)
      modifies this`sortOrder
      ensures sortOrder == p && sortBy == old(sortBy)
      ensures State() == Reduce(old(State()), Action.SetSortOrder(p))
    {
      sortOrder := p;
    }

    /** The setSortBy reducer: only sortBy changes, to the payload. */
    method SetSortBy(p: SortBy)
      modifies this`sortBy
      ensures sortBy == p && sortOrder == old(sortOrder)
      ensures State() == Reduce(old(State()), Action.SetSortBy(p))
    {
      sortBy := p;
    }

    /** Dispatching an action runs the reducer it names. */
    method Dispatch(a: Action)
      modifies this
      ensures State() == Reduce(old(State()), a)
    {
      match a
      case SetSortOrder(p) => SetSortOrder(p);
      case SetSortBy(p) => SetSortBy(p);
    }
  }
}
