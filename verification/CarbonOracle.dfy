/** The carbon price oracle contract: a registry of oracles, one price each, and a fresh median. */
module CarbonOracleContract {
  import opened Outcomes
  import opened Registries
  import opened OrderStatistics
  import opened PriceSorts

  type Address = nat

  /** A stored price and the ledger sequence at which it was submitted. */
  datatype Submission = Submission(price: nat, ledger: nat)

  datatype OracleError = Unauthorized | NoValidSubmission | TooManyOracles | SumOverflow

  /** Contract storage. */
  datatype Registry = Registry(admin: Address, maxAge: nat, oracles: seq<Address>, prices: map<Address, Submission>)

  ghost predicate Consistent(g: Registry) {
    && Distinct(g.oracles)
    && (forall o :: o in g.prices ==> o in g.oracles && g.prices[o].price <= U64_MAX)
  }

  /** What a caller may ask for; a failed call changes nothing. */
  datatype Call =
    | Add(caller: Address, oracle: Address)
    | Remove(caller: Address, oracle: Address)
    | Submit(oracle: Address, price: nat, ledger: nat)

  function Apply(g: Registry, c: Call): Result<Registry, OracleError> {
    match c
    case Add(caller, o) =>
      if caller != g.admin then Err(Unauthorized)
      else if o in g.oracles then Ok(g)
      else Ok(g.(oracles := g.oracles + [o]))
    case Remove(caller, o) =>
      if caller != g.admin then Err(Unauthorized)
      else Ok(g.(oracles := RemoveFirst(g.oracles, o), prices := g.prices - {o}))
    case Submit(o, price, ledger) =>
      if o !in g.oracles then Err(Unauthorized)
      else Ok(g.(prices := g.prices[o := Submission(price, ledger)]))
  }

  function After(g: Registry, c: Call): Registry {
    var r := Apply(g, c);
    if r.Ok? then r.value else g
  }

  function Run(g: Registry, calls: seq<Call>): Registry {
    if calls == [] then g else After(Run(g, calls[..|calls| - 1]), calls[|calls| - 1])
  }

  ghost predicate FitsU64(c: Call) {
    c.Submit? ==> c.price <= U64_MAX
  }

  lemma StepConsistent(g: Registry, c: Call)
    requires Consistent(g) && FitsU64(c)
    ensures Consistent(After(g, c))
  {
    if c.Remove? { RemoveFirstDistinct(g.oracles, c.oracle); }
  }

  lemma {:induction false} RunConsistent(g: Registry, calls: seq<Call>)
    requires Consistent(g) && forall c :: c in calls ==> FitsU64(c)
    ensures Consistent(Run(g, calls))
  {
    if calls != [] {
      RunConsistent(g, calls[..|calls| - 1]);
      StepConsistent(Run(g, calls[..|calls| - 1]), calls[|calls| - 1]);
    }
  }

  // ---- Reading the registry off the call history, one oracle at a time ------

  /** Whether o is registered after the calls: its last administrative call was an addition. */
  predicate Registered(admin: Address, calls: seq<Call>, o: Address) {
    if calls == [] then false
    else
      var c := calls[|calls| - 1];
      if c.Add? && c.caller == admin && c.oracle == o then true
      else if c.Remove? && c.caller == admin && c.oracle == o then false
      else Registered(admin, calls[..|calls| - 1], o)
  }

  /** The price o last submitted while registered, since it was last removed. */
  function LastPrice(admin: Address, calls: seq<Call>, o: Address): Option<Submission> {
    if calls == [] then None
    else
      var c, rest := calls[|calls| - 1], calls[..|calls| - 1];
      if c.Remove? && c.caller == admin && c.oracle == o then None
      else if c.Submit? && c.oracle == o && Registered(admin, rest, o) then Some(Submission(c.price, c.ledger))
      else LastPrice(admin, rest, o)
  }

  function Stored(g: Registry, o: Address): Option<Submission> {
    if o in g.prices then Some(g.prices[o]) else None
  }

  /** The vector and the price map agree with the per-oracle reading of the history. */
  lemma {:induction false} StorageMatchesHistory(admin: Address, maxAge: nat, calls: seq<Call>, o: Address)
    requires forall c :: c in calls ==> FitsU64(c)
    ensures var g := Run(Registry(admin, maxAge, [], map[]), calls);
      && g.admin == admin && g.maxAge == maxAge && Consistent(g)
      && (o in g.oracles <==> Registered(admin, calls, o))
      && Stored(g, o) == LastPrice(admin, calls, o)
  {
    RunConsistent(Registry(admin, maxAge, [], map[]), calls);
    if calls != [] {
      var rest, c := calls[..|calls| - 1], calls[|calls| - 1];
      StorageMatchesHistory(admin, maxAge, rest, o);
      if c.Remove? {
        RemoveFirstDistinct(Run(Registry(admin, maxAge, [], map[]), rest).oracles, c.oracle);
      }
    }
  }

  /** A removed oracle has no price until it submits again, however often it is re-added. */
  lemma {:induction false} RemovalForgetsPrice(g: Registry, o: Address, later: seq<Call>)
    requires Consistent(g) && forall c :: c in later ==> FitsU64(c) && !(c.Submit? && c.oracle == o)
    ensures o !in Run(After(g, Remove(g.admin, o)), later).prices
  {
    if later != [] {
      RemovalForgetsPrice(g, o, later[..|later| - 1]);
    }
  }

  // ---- The fresh median ------------------------------------------------------

  predicate IsFresh(g: Registry, o: Address, ledger: nat) {
    o in g.prices && ledger >= g.prices[o].ledger && ledger - g.prices[o].ledger <= g.maxAge
  }

  /** Freshness read off the call history: the oracle's last price, submitted at ledger l, is fresh at
      the ledgers from l to l + maxAge. */
  lemma FreshByHistory(admin: Address, maxAge: nat, calls: seq<Call>, o: Address, ledger: nat)
    requires forall c :: c in calls ==> FitsU64(c)
    ensures var g, last := Run(Registry(admin, maxAge, [], map[]), calls), LastPrice(admin, calls, o);
      && (IsFresh(g, o, ledger) <==> last.Some? && last.value.ledger <= ledger <= last.value.ledger + maxAge)
      && (IsFresh(g, o, ledger) ==> g.prices[o] == last.value)
  {
    StorageMatchesHistory(admin, maxAge, calls, o);
  }

  /** Fresh prices of the listed oracles, in registration order. */
  function FreshPrices(g: Registry, os: seq<Address>, ledger: nat): seq<int> {
    if os == [] then []
    else (if IsFresh(g, os[0], ledger) then [g.prices[os[0]].price] else []) + FreshPrices(g, os[1..], ledger)
  }

  lemma {:induction false} FreshAppend(g: Registry, os: seq<Address>, o: Address, ledger: nat)
    ensures FreshPrices(g, os + [o], ledger)
         == FreshPrices(g, os, ledger) + if IsFresh(g, o, ledger) then [g.prices[o].price] else []
  {
    if os == [] {
      assert os + [o] == [o];
    } else {
      assert (os + [o])[1..] == os[1..] + [o];
      FreshAppend(g, os[1..], o, ledger);
    }
  }

  lemma {:induction false} FreshFitU64(g: Registry, os: seq<Address>, ledger: nat)
    requires Consistent(g)
    ensures forall p :: p in FreshPrices(g, os, ledger) ==> 0 <= p <= U64_MAX
  {
    if os != [] { FreshFitU64(g, os[1..], ledger); }
  }

  /** Some listed oracle has p as its fresh price. */
  ghost predicate Offered(g: Registry, os: seq<Address>, ledger: nat, p: int) {
    exists o :: o in os && IsFresh(g, o, ledger) && g.prices[o].price == p
  }

  /** Each fresh registered oracle contributes exactly one price, and nothing else does. */
  lemma {:induction false} OnePricePerFreshOracle(g: Registry, os: seq<Address>, ledger: nat)
    requires Distinct(os)
    ensures |FreshPrices(g, os, ledger)| == |set o | o in os && IsFresh(g, o, ledger)|
    ensures forall p :: (p in FreshPrices(g, os, ledger) <==> Offered(g, os, ledger, p))
  {
    if os != [] {
      OnePricePerFreshOracle(g, os[1..], ledger);
      var all := set o | o in os && IsFresh(g, o, ledger);
      var tail := set o | o in os[1..] && IsFresh(g, o, ledger);
      assert os[0] !in os[1..];
      assert all == tail + if IsFresh(g, os[0], ledger) then {os[0]} else {};
      forall p ensures p in FreshPrices(g, os, ledger) <==> Offered(g, os, ledger, p) {
        if Offered(g, os, ledger, p) {
          var o :| o in os && IsFresh(g, o, ledger) && g.prices[o].price == p;
          assert o == os[0] || o in os[1..];
          assert o != os[0] ==> Offered(g, os[1..], ledger, p);
        } else {
          assert !Offered(g, os[1..], ledger, p);
        }
      }
    }
  }

  class CarbonOracle {
    var admin: Address
    var maxAge: nat
    var oracles: seq<Address>
    var prices: map<Address, Submission>

    ghost function View(): Registry
      reads this
    {
      Registry(admin, maxAge, oracles, prices)
    }

    ghost predicate Valid()
      reads this
    {
      Consistent(View())
    }

    constructor (admin: Address, maxAge: nat)
      ensures Valid() && View() == Registry(admin, maxAge, [], map[])
    {
      this.admin, this.maxAge, oracles, prices := admin, maxAge, [], map[];
    }

    method AddOracle(caller: Address, oracle: Address) returns (r: Result<(), OracleError>)
      requires Valid()
      modifies this
      ensures Valid() && View() == After(old(View()), Add(caller, oracle))
      ensures r == if caller == old(admin) then Ok(()) else Err(Unauthorized)
    {
      StepConsistent(View(), Add(caller, oracle));
      if caller != admin { return Err(Unauthorized); }
      if oracle !in oracles {
        oracles := oracles + [oracle];
      }
      return Ok(());
    }

    method RemoveOracle(caller: Address, oracle: Address) returns (r: Result<(), OracleError>)
      requires Valid()
      modifies this
      ensures Valid() && View() == After(old(View()), Remove(caller, oracle))
      ensures r == if caller == old(admin) then Ok(()) else Err(Unauthorized)
    {
      StepConsistent(View(), Remove(caller, oracle));
      if caller != admin { return Err(Unauthorized); }
      if oracle in oracles {
        var index :| 0 <= index < |oracles| && oracles[index] == oracle && oracle !in oracles[..index];
        RemoveFirstAt(oracles, oracle, index);
        oracles := oracles[..index] + oracles[index + 1..];
      } else {
        RemoveFirstAbsent(oracles, oracle);
      }
      prices := prices - {oracle};
      return Ok(());
    }

    method SubmitPrice(oracle: Address, price: nat, ledger: nat) returns (r: Result<(), OracleError>)
      requires Valid() && price <= U64_MAX
      modifies this
      ensures Valid() && View() == After(old(View()), Submit(oracle, price, ledger))
      ensures r == if oracle in old(oracles) then Ok(()) else Err(Unauthorized)
    {
      if oracle !in oracles { return Err(Unauthorized); }
      prices := prices[oracle := Submission(price, ledger)];
      return Ok(());
    }

    /** The prices the median is taken over, in registration order. */
    method CollectFresh(ledger: nat) returns (validPrices: seq<int>)
      ensures validPrices == FreshPrices(View(), oracles, ledger)
    {
      validPrices := [];
      for i := 0 to |oracles|
        invariant validPrices == FreshPrices(View(), oracles[..i], ledger)
      {
        var oracle := oracles[i];
        FreshAppend(View(), oracles[..i], oracle, ledger);
        assert oracles[..i + 1] == oracles[..i] + [oracle];
        if oracle in prices {
          var s := prices[oracle];
          if ledger >= s.ledger && ledger - s.ledger <= maxAge {
            validPrices := validPrices + [s.price];
          }
        }
      }
      assert oracles[..|oracles|] == oracles;
    }

    /** The median of exactly the fresh prices, or the reason there is none. */
    method GetMedianPrice(ledger: nat) returns (r: Result<int, OracleError>)
      requires Valid()
      ensures MedianReport(FreshPrices(View(), oracles, ledger), r)
    {
      var validPrices := CollectFresh(ledger);
      var len := |validPrices|;
      if len == 0 { return Err(NoValidSubmission); }
      if len > 20 { return Err(TooManyOracles); }
      FreshFitU64(View(), oracles, ledger);
      r := SortAndPick(validPrices);
    }
  }

  /** What a median query may answer on the given prices: each answer holds exactly under its condition. */
  ghost predicate MedianReport(xs: seq<int>, r: Result<int, OracleError>) {
    match r
    case Ok(m) => 0 < |xs| <= 20 && 0 <= m <= U64_MAX && IsMedian(INT_LE, INT_AVG, xs, m) && !MiddleSumOverflows(xs)
    case Err(NoValidSubmission) => xs == []
    case Err(TooManyOracles) => |xs| > 20
    case Err(SumOverflow) => 0 < |xs| <= 20 && MiddleSumOverflows(xs)
    case Err(Unauthorized) => false
  }

  /** The two middle prices do not add up within u64, where the contract traps. */
  ghost predicate MiddleSumOverflows(xs: seq<int>) {
    |xs| % 2 == 0 && exists lo, hi :: MiddlePair(INT_LE, xs, lo, hi) && lo + hi > U64_MAX
  }

  /** End to end: while a strict majority of fresh prices lies in [a, b], no minority of
      oracles can move the answered price out of it. */
  lemma AnsweredPriceRobust(xs: seq<int>, r: Result<int, OracleError>, a: int, b: int)
    requires MedianReport(xs, r) && r.Ok? && 2 * Count(xs, Within(INT_LE, a, b)) > |xs|
    ensures a <= r.value <= b
  {
    PriceOrders();
    MedianRobust(INT_LE, INT_AVG, xs, r.value, a, b);
  }

  lemma SortedBounds(ys: seq<int>, xs: seq<int>)
    requires multiset(ys) == multiset(xs) && forall p :: p in xs ==> 0 <= p <= U64_MAX
    ensures forall i :: 0 <= i < |ys| ==> 0 <= ys[i] <= U64_MAX
  {
    forall i | 0 <= i < |ys| ensures 0 <= ys[i] <= U64_MAX {
      assert ys[i] in multiset(ys) && ys[i] in xs;
    }
  }

  /** The middle pair of a sorted arrangement decides whether the middle sum overflows. */
  lemma MiddleSumDecided(xs: seq<int>, ys: seq<int>)
    requires Sorted(INT_LE, ys) && multiset(xs) == multiset(ys) && ys != [] && |ys| % 2 == 0
    ensures MiddleSumOverflows(xs) <==> ys[|ys| / 2 - 1] + ys[|ys| / 2] > U64_MAX
  {
    assert |xs| == |multiset(xs)| == |multiset(ys)| == |ys|;
    SortedHoldsKth(INT_LE, xs, ys, |ys| / 2 - 1);
    SortedHoldsKth(INT_LE, xs, ys, |ys| / 2);
    assert MiddlePair(INT_LE, xs, ys[|ys| / 2 - 1], ys[|ys| / 2]);
    if MiddleSumOverflows(xs) {
      var lo, hi :| MiddlePair(INT_LE, xs, lo, hi) && lo + hi > U64_MAX;
      PriceOrders();
      KthUnique(INT_LE, xs, |ys| / 2 - 1, lo, ys[|ys| / 2 - 1]);
      KthUnique(INT_LE, xs, |ys| / 2, hi, ys[|ys| / 2]);
    }
  }

  /** Copy into the fixed array, bubble sort, read the middle. */
  method SortAndPick(xs: seq<int>) returns (r: Result<int, OracleError>)
    requires 0 < |xs| <= 20 && forall p :: p in xs ==> 0 <= p <= U64_MAX
    ensures MedianReport(xs, r)
  {
    var len := |xs|;
    var pricesArray := new int[20](_ => 0);
    for i := 0 to len
      invariant pricesArray[..i] == xs[..i]
    {
      pricesArray[i] := xs[i];
    }
    assert pricesArray[..len] == xs;
    BubbleSort(pricesArray, len);
    ghost var ys := pricesArray[..len];
    SortedBounds(ys, xs);
    if len % 2 == 1 {
      r := Ok(pricesArray[len / 2]);
      SortedMedian(INT_LE, INT_AVG, xs, ys, r.value);
    } else {
      var mid1, mid2 := pricesArray[len / 2 - 1], pricesArray[len / 2];
      MiddleSumDecided(xs, ys);
      if mid1 + mid2 > U64_MAX { return Err(SumOverflow); }
      r := Ok((mid1 + mid2) / 2);
      SortedMedian(INT_LE, INT_AVG, xs, ys, r.value);
    }
  }
}
