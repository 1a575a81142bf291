/**
 * `waitForElement`: query the page for a selector once per tick, one tick
 * every 100 ms; resolve with the first element found, and reject once the
 * time spent on misses reaches the timeout. The page is an oracle giving the
 * query's answer at each tick.
 */
module Poller {
  import opened Options

  /** Milliseconds between two queries. */
  const Interval: nat := 100

  /** The timeout every caller in the extension uses, in milliseconds. */
  const DefaultTimeout: int := 10000

  /** How a poll settles: resolved with an element, or rejected with an error message. */
  datatype Lookup<E> = Found(element: E) | NotFound(message: string)

  /** The message of the error a poll rejects with. */
  function NotFoundMessage(selector: string): string {
    "Element " + selector + " not found"
  }

  /**
   * The number of queries of a poll that never finds anything: the least
   * `n >= 1` with `n * Interval >= timeout`, that is `ceil(timeout / 100)`
   * for a positive timeout and a single query otherwise.
   */
  function QueryBudget(timeout: int): (n: nat)
    ensures n >= 1 && n * Interval >= timeout
    ensures n == 1 || (n - 1) * Interval < timeout
  {
    if timeout <= Interval then 1 else (timeout + Interval - 1) / Interval
  }

  /** The default timeout of 10 s allows one hundred queries. */
  lemma DefaultQueryBudget()
    ensures QueryBudget(DefaultTimeout) == 100
  {
  }

  /** The first tick in `[from, to)` whose query finds an element, if any. */
  function FirstHit<E>(query: nat -> Option<E>, from: nat, to: nat): (k: Option<nat>)
    ensures k.Some? ==> from <= k.value < to && query(k.value).Some?
    ensures k.Some? ==> (forall j :: from <= j < k.value ==> query(j).None?)
    ensures k.None? ==> (forall j :: from <= j < to ==> query(j).None?)
    decreases if from < to then to - from else 0
  {
    if from >= to then None
    else if query(from).Some? then Some(from)
    else FirstHit(query, from + 1, to)
  }

  /** How a poll for `selector` against the page `query` settles. */
  function WaitOutcome<E>(selector: string, query: nat -> Option<E>, timeout: int): Lookup<E> {
    match FirstHit(query, 0, QueryBudget(timeout))
    case Some(k) => Found(query(k).value)
    case None => NotFound(NotFoundMessage(selector))
  }

  /** How many times a poll queries the page before it settles. */
  function QueriesMade<E>(query: nat -> Option<E>, timeout: int): nat {
    match FirstHit(query, 0, QueryBudget(timeout))
    case Some(k) => k + 1
    case None => QueryBudget(timeout)
  }

  /**
   * A poll resolves exactly when some query within the budget finds an
   * element, and then with the element of the earliest such query.
   */
  lemma {:induction false} WaitOutcomeFound<E>(selector: string, query: nat -> Option<E>, timeout: int)
    ensures WaitOutcome(selector, query, timeout).Found? <==>
            exists k :: 0 <= k < QueryBudget(timeout) && query(k).Some?
    ensures forall k :: 0 <= k < QueryBudget(timeout) && query(k).Some? &&
                        (forall j :: 0 <= j < k ==> query(j).None?) ==>
                        WaitOutcome(selector, query, timeout) == Found(query(k).value)
  {
    var hit := FirstHit(query, 0, QueryBudget(timeout));
    if hit.Some? {
      assert 0 <= hit.value < QueryBudget(timeout) && query(hit.value).Some?;
    }
  }

  /**
   * `waitForElement(selector, timeout)`: query at ticks 0, 1, 2, ...; on a
   * hit resolve with that element; on a miss add `Interval` to the elapsed
   * time and reject once it reaches `timeout`. Returns how the poll settled
   * and how many queries it made; nothing is queried after it settles.
   */
  method WaitForElement<E>(selector: string, query: nat -> Option<E>, timeout: int)
    returns (r: Lookup<E>, queries: nat)
    ensures 1 <= queries <= QueryBudget(timeout)
    ensures forall k :: 0 <= k < queries - 1 ==> query(k).None?
    ensures r.Found? ==> query(queries - 1) == Some(r.element)
    ensures r.NotFound? ==> query(queries - 1).None? && queries == QueryBudget(timeout) &&
                            r.message == NotFoundMessage(selector)
    ensures r == WaitOutcome(selector, query, timeout) && queries == QueriesMade(query, timeout)
  {
    var elapsed := 0;
    queries := 0;
    while true
      invariant elapsed == queries * Interval
      invariant queries == 0 || elapsed < timeout
      invariant queries < QueryBudget(timeout)
      invariant forall k :: 0 <= k < queries ==> query(k).None?
      decreases QueryBudget(timeout) - queries
    {
      var el := query(queries);
      queries := queries + 1;
      if el.Some? {
        r := Found(el.value);
        return;
      }
      elapsed := elapsed + Interval;
      if elapsed >= timeout {
        r := NotFound(NotFoundMessage(selector));
        return;
      }
    }
  }
}
