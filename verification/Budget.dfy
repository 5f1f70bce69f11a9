// Fitting the context of a review into a token budget (code_graph/budget.py).
module Budget {
  import opened Lists
  import opened CodeGraph
  import opened ContractChanges

  const CHARS_PER_TOKEN := 4
  const MAX_FULL_BODY_NEIGHBORS := 20
  const MAX_TAIL_ENTRIES := 50

  datatype BudgetSelection = BudgetSelection(
    changedSymbols: seq<Symbol>, fullBodyNeighbors: seq<Symbol>, signatureOnlyNeighbors: seq<Symbol>,
    budgetUsed: nat, truncated: bool)

  // One token for every four full characters, but at least one.
  function EstimateTokens(text: string): (tokens: nat)
    ensures if |text| < 4 then tokens == 1 else 4 * tokens <= |text| < 4 * tokens + 4
  {
    if |text| / CHARS_PER_TOKEN < 1 then 1 else |text| / CHARS_PER_TOKEN
  }

  // The cost of a symbol with its body, of its signature if it has none.
  function FullCost(s: Symbol): (cost: nat)
    ensures s.body != "" ==> cost == EstimateTokens(s.body)
    ensures s.body == "" ==> cost == EstimateTokens(s.signature)
  {
    EstimateTokens(if s.body != "" then s.body else s.signature)
  }

  // The cost of a symbol of which only the signature is given.
  function TailCost(s: Symbol): (cost: nat)
    ensures if |s.signature| < 4 then cost == 1 else 4 * cost <= |s.signature| < 4 * cost + 4
  {
    EstimateTokens(s.signature)
  }

  function Candidate(symbolsById: map<string, Symbol>, changedIds: set<string>): string -> seq<Symbol> {
    (id: string) => if id in symbolsById && id !in changedIds then [symbolsById[id]] else []
  }

  // The ranked symbols that are known and not changed.
  function Candidates(changed: seq<Symbol>, ranked: seq<string>, symbolsById: map<string, Symbol>): seq<Symbol> {
    FlatMap(ranked, Candidate(symbolsById, set s | s in changed :: s.id))
  }

  // They are listed as they are ranked: the next one ranked comes last, if it is known and
  // no changed symbol has its id.
  lemma CandidatesAreRanked(changed: seq<Symbol>, ranked: seq<string>, symbolsById: map<string, Symbol>, id: string)
    ensures Candidates(changed, [], symbolsById) == []
    ensures Candidates(changed, ranked + [id], symbolsById)
         == Candidates(changed, ranked, symbolsById)
            + (if id in symbolsById && forall s | s in changed :: s.id != id then [symbolsById[id]] else [])
  {
    FlatMapSnoc(ranked, Candidate(symbolsById, set s | s in changed :: s.id), id);
  }

  // ---- Taking what fits, in order ----------------------------------------------------------

  // The elements that are placed, and the others, in order.
  function Picked<T>(xs: seq<T>, placed: seq<bool>): seq<T>
    requires |placed| == |xs|
  {
    if xs == [] then []
    else Picked(xs[..|xs| - 1], placed[..|xs| - 1]) + if placed[|xs| - 1] then [xs[|xs| - 1]] else []
  }

  function Others<T>(xs: seq<T>, placed: seq<bool>): seq<T>
    requires |placed| == |xs|
  {
    if xs == [] then []
    else Others(xs[..|xs| - 1], placed[..|xs| - 1]) + if placed[|xs| - 1] then [] else [xs[|xs| - 1]]
  }

  // Those placed before it leave room for x.
  predicate LeavesRoom<T>(before: seq<T>, x: T, cost: T -> nat, limit: nat, budget: nat) {
    |before| < limit && Sum(before, cost) + cost(x) <= budget
  }

  // An element is placed if and only if those placed before it leave room for it.
  ghost predicate InRankOrder<T>(xs: seq<T>, placed: seq<bool>, cost: T -> nat, limit: nat, budget: nat) {
    |placed| == |xs| && forall i | 0 <= i < |xs| :: PlacedIfRoom(xs, placed, i, cost, limit, budget)
  }

  ghost predicate PlacedIfRoom<T>(xs: seq<T>, placed: seq<bool>, i: nat, cost: T -> nat, limit: nat, budget: nat)
    requires i < |xs| == |placed|
  {
    placed[i] <==> LeavesRoom(Picked(xs[..i], placed[..i]), xs[i], cost, limit, budget)
  }

  lemma PickedTake<T>(xs: seq<T>, placed: seq<bool>, i: nat, taken: bool)
    requires i < |xs| && |placed| == i
    ensures Picked(xs[..i + 1], placed + [taken]) == Picked(xs[..i], placed) + if taken then [xs[i]] else []
    ensures Others(xs[..i + 1], placed + [taken]) == Others(xs[..i], placed) + if taken then [] else [xs[i]]
  {
    assert xs[..i + 1][..i] == xs[..i] && (placed + [taken])[..i] == placed;
  }

  lemma InRankOrderTake<T>(xs: seq<T>, placed: seq<bool>, i: nat, taken: bool, cost: T -> nat, limit: nat, budget: nat)
    requires i < |xs| && InRankOrder(xs[..i], placed, cost, limit, budget)
    requires taken <==> LeavesRoom(Picked(xs[..i], placed), xs[i], cost, limit, budget)
    ensures InRankOrder(xs[..i + 1], placed + [taken], cost, limit, budget)
  {
    var now, after := placed + [taken], xs[..i + 1];
    forall j | 0 <= j < i + 1 ensures PlacedIfRoom(after, now, j, cost, limit, budget) {
      if j < i {
        assert PlacedIfRoom(xs[..i], placed, j, cost, limit, budget);
        assert after[..j] == xs[..i][..j] && now[..j] == placed[..j] && after[j] == xs[..i][j];
      } else {
        assert after[..j] == xs[..i] && now[..j] == placed;
      }
    }
  }

  lemma {:induction false} PickedBag<T>(xs: seq<T>, placed: seq<bool>)
    requires |placed| == |xs|
    ensures multiset(Picked(xs, placed)) + multiset(Others(xs, placed)) == multiset(xs)
    ensures |Picked(xs, placed)| + |Others(xs, placed)| == |xs|
  {
    if xs != [] {
      PickedBag(xs[..|xs| - 1], placed[..|xs| - 1]);
      InitLast(xs);
    }
  }

  lemma SumSnoc<T>(xs: seq<T>, x: T, cost: T -> nat)
    ensures Sum(xs + [x], cost) == Sum(xs, cost) + cost(x)
  {
    assert (xs + [x])[..|xs|] == xs;
  }

  lemma InRankOrderInit<T>(xs: seq<T>, placed: seq<bool>, cost: T -> nat, limit: nat, budget: nat)
    requires xs != [] && InRankOrder(xs, placed, cost, limit, budget)
    ensures (var n := |xs| - 1;
             && InRankOrder(xs[..n], placed[..n], cost, limit, budget)
             && PlacedIfRoom(xs, placed, n, cost, limit, budget))
  {
    var n := |xs| - 1;
    forall i | 0 <= i < n ensures PlacedIfRoom(xs[..n], placed[..n], i, cost, limit, budget) {
      assert PlacedIfRoom(xs, placed, i, cost, limit, budget);
      assert xs[..n][..i] == xs[..i] && placed[..n][..i] == placed[..i];
    }
  }

  // What is placed keeps to the limit and the budget, and the room left is too small for
  // all others.
  lemma {:induction false} PlacedWithin<T>(xs: seq<T>, placed: seq<bool>, cost: T -> nat, limit: nat, budget: nat)
    requires InRankOrder(xs, placed, cost, limit, budget)
    ensures Keeps(Picked(xs, placed), Others(xs, placed), cost, limit, budget)
  {
    if xs != [] {
      var n := |xs| - 1;
      InRankOrderInit(xs, placed, cost, limit, budget);
      PlacedWithin(xs[..n], placed[..n], cost, limit, budget);
      KeepsNext(Picked(xs[..n], placed[..n]), Others(xs[..n], placed[..n]), xs[n], cost, limit, budget);
      NothingAdded(Picked(xs[..n], placed[..n]));
      NothingAdded(Others(xs[..n], placed[..n]));
    }
  }

  ghost predicate Keeps<T>(picked: seq<T>, others: seq<T>, cost: T -> nat, limit: nat, budget: nat) {
    && |picked| <= limit && Sum(picked, cost) <= budget
    && forall x | x in others :: !LeavesRoom(picked, x, cost, limit, budget)
  }

  lemma NothingAdded<T>(xs: seq<T>)
    ensures xs + [] == xs
  {
  }

  lemma KeepsNext<T>(picked: seq<T>, others: seq<T>, x: T, cost: T -> nat, limit: nat, budget: nat)
    requires Keeps(picked, others, cost, limit, budget)
    ensures if LeavesRoom(picked, x, cost, limit, budget) then Keeps(picked + [x], others, cost, limit, budget)
            else Keeps(picked, others + [x], cost, limit, budget)
  {
    SumSnoc(picked, x, cost);
  }

  // Once the limit is reached nothing more is placed.
  lemma {:induction false} LimitReached<T>(xs: seq<T>, placed: seq<bool>, i: nat, cost: T -> nat, limit: nat,
                                           budget: nat)
    returns (all: seq<bool>)
    requires i <= |xs| && InRankOrder(xs[..i], placed, cost, limit, budget) && |Picked(xs[..i], placed)| >= limit
    ensures InRankOrder(xs, all, cost, limit, budget) && all[..i] == placed
    ensures Picked(xs, all) == Picked(xs[..i], placed) && Others(xs, all) == Others(xs[..i], placed) + xs[i..]
    decreases |xs| - i
  {
    if i == |xs| {
      assert xs[..i] == xs;
      all := placed;
    } else {
      PickedTake(xs, placed, i, false);
      InRankOrderTake(xs, placed, i, false, cost, limit, budget);
      all := LimitReached(xs, placed + [false], i + 1, cost, limit, budget);
      assert all[..i] == all[..i + 1][..i];
      assert [xs[i]] + xs[i + 1..] == xs[i..];
    }
  }

  // Somebody comes after the limit has been reached.
  ghost predicate Overflows<T>(xs: seq<T>, placed: seq<bool>, limit: nat)
    requires |placed| == |xs|
  {
    exists i | 0 <= i < |xs| :: FullAt(xs, placed, i, limit)
  }

  ghost predicate FullAt<T>(xs: seq<T>, placed: seq<bool>, i: nat, limit: nat)
    requires i < |xs| == |placed|
  {
    |Picked(xs[..i], placed[..i])| >= limit
  }

  // ---- Full bodies ------------------------------------------------------------------------

  // The first n candidates have been considered.
  ghost predicate FullSoFar(candidates: seq<Symbol>, n: nat, full: seq<Symbol>, used: nat, remaining: seq<Symbol>,
                            placed: seq<bool>, budget: nat)
  {
    && n <= |candidates| && InRankOrder(candidates[..n], placed, FullCost, MAX_FULL_BODY_NEIGHBORS, budget)
    && full == Picked(candidates[..n], placed) && used == Sum(full, FullCost)
    && remaining == Others(candidates[..n], placed) + candidates[n..]
  }

  lemma FullNext(candidates: seq<Symbol>, n: nat, full: seq<Symbol>, used: nat, remaining: seq<Symbol>,
                 placed: seq<bool>, budget: nat)
    requires n < |candidates| && FullSoFar(candidates, n, full, used, remaining, placed, budget)
    requires |full| < MAX_FULL_BODY_NEIGHBORS
    ensures (var s := candidates[n];
             if used + FullCost(s) > budget
             then FullSoFar(candidates, n + 1, full, used, remaining, placed + [false], budget)
             else s in remaining
                  && FullSoFar(candidates, n + 1, full + [s], used + FullCost(s), Remove(remaining, s),
                               placed + [true], budget))
  {
    var s, others := candidates[n], Others(candidates[..n], placed);
    var fits := used + FullCost(s) <= budget;
    PickedTake(candidates, placed, n, fits);
    InRankOrderTake(candidates, placed, n, fits, FullCost, MAX_FULL_BODY_NEIGHBORS, budget);
    assert candidates[n..] == [s] + candidates[n + 1..];
    if fits {
      PlacedWithin(candidates[..n], placed, FullCost, MAX_FULL_BODY_NEIGHBORS, budget);
      RemoveBehind(others, s, candidates[n + 1..]);
      assert others + [] == others;
      SumSnoc(full, s, FullCost);
    } else {
      assert others + candidates[n..] == (others + [s]) + candidates[n + 1..];
    }
  }

  lemma {:induction false} RemoveBehind<T>(xs: seq<T>, x: T, rest: seq<T>)
    requires x !in xs
    ensures x in xs + ([x] + rest) && Remove(xs + ([x] + rest), x) == xs + rest
    decreases |xs|
  {
    if xs == [] {
      assert xs + ([x] + rest) == [x] + rest && xs + rest == rest;
    } else {
      assert (xs + ([x] + rest))[1..] == xs[1..] + ([x] + rest);
      RemoveBehind(xs[1..], x, rest);
      assert [xs[0]] + (xs[1..] + rest) == xs + rest;
    }
  }

  lemma FullStops(candidates: seq<Symbol>, n: nat, full: seq<Symbol>, used: nat, remaining: seq<Symbol>,
                  placed: seq<bool>, budget: nat)
    returns (all: seq<bool>)
    requires n < |candidates| && FullSoFar(candidates, n, full, used, remaining, placed, budget)
    requires |full| >= MAX_FULL_BODY_NEIGHBORS
    ensures FullSoFar(candidates, |candidates|, full, used, remaining, all, budget)
    ensures Overflows(candidates[..|candidates|], all, MAX_FULL_BODY_NEIGHBORS)
  {
    all := LimitReached(candidates, placed, n, FullCost, MAX_FULL_BODY_NEIGHBORS, budget);
    assert candidates[..|candidates|] == candidates;
    assert Others(candidates, all) + [] == Others(candidates, all);
    assert candidates[..n][..n] == candidates[..n] && FullAt(candidates, all, n, MAX_FULL_BODY_NEIGHBORS);
  }

  // All candidates have been considered.
  ghost predicate FullDone(candidates: seq<Symbol>, full: seq<Symbol>, used: nat, remaining: seq<Symbol>,
                           placed: seq<bool>, budget: nat, truncated: bool)
  {
    && InRankOrder(candidates, placed, FullCost, MAX_FULL_BODY_NEIGHBORS, budget)
    && full == Picked(candidates, placed) && used == Sum(full, FullCost) && remaining == Others(candidates, placed)
    && (truncated <==> Overflows(candidates, placed, MAX_FULL_BODY_NEIGHBORS))
  }

  lemma FullEnds(candidates: seq<Symbol>, full: seq<Symbol>, used: nat, remaining: seq<Symbol>, placed: seq<bool>,
                 budget: nat, truncated: bool)
    requires FullSoFar(candidates, |candidates|, full, used, remaining, placed, budget)
    requires truncated <==> Overflows(candidates[..|candidates|], placed, MAX_FULL_BODY_NEIGHBORS)
    ensures FullDone(candidates, full, used, remaining, placed, budget, truncated)
  {
    assert candidates[..|candidates|] == candidates;
    assert Others(candidates, placed) + [] == Others(candidates, placed);
  }

  method PlaceFullBodies(candidates: seq<Symbol>, budget: nat)
    returns (full: seq<Symbol>, used: nat, remaining: seq<Symbol>, truncated: bool, ghost placed: seq<bool>)
    ensures FullDone(candidates, full, used, remaining, placed, budget, truncated)
  {
    full, used, remaining, truncated, placed := [], 0, candidates, false, [];
    for i := 0 to |candidates|
      invariant FullSoFar(candidates, i, full, used, remaining, placed, budget)
      invariant !Overflows(candidates[..i], placed, MAX_FULL_BODY_NEIGHBORS)
    {
      if |full| >= MAX_FULL_BODY_NEIGHBORS {
        truncated := true;
        placed := FullStops(candidates, i, full, used, remaining, placed, budget);
        FullEnds(candidates, full, used, remaining, placed, budget, true);
        return;
      }
      var symbol := candidates[i];
      var cost := FullCost(symbol);
      FullNext(candidates, i, full, used, remaining, placed, budget);
      NoOverflow(candidates, placed, i, used + cost <= budget, MAX_FULL_BODY_NEIGHBORS);
      if used + cost > budget {
        placed := placed + [false];
        continue;
      }
      full := full + [symbol];
      used := used + cost;
      remaining := RemoveFirst(remaining, symbol);
      placed := placed + [true];
    }
    FullEnds(candidates, full, used, remaining, placed, budget, false);
  }

  lemma NoOverflow<T>(xs: seq<T>, placed: seq<bool>, i: nat, taken: bool, limit: nat)
    requires i < |xs| && |placed| == i && |Picked(xs[..i], placed)| < limit && !Overflows(xs[..i], placed, limit)
    ensures !Overflows(xs[..i + 1], placed + [taken], limit)
  {
    var now, after := placed + [taken], xs[..i + 1];
    forall j | 0 <= j < i + 1 ensures !FullAt(after, now, j, limit) {
      if j < i {
        assert !FullAt(xs[..i], placed, j, limit);
        assert after[..j] == xs[..i][..j] && now[..j] == placed[..j];
      } else {
        assert after[..j] == xs[..i] && now[..j] == placed;
      }
    }
  }

  // ---- Signatures -----------------------------------------------------------------------------

  ghost predicate TailSoFar(remaining: seq<Symbol>, n: nat, tail: seq<Symbol>, used: nat, placed: seq<bool>,
                            budget: nat)
  {
    && n <= |remaining| && InRankOrder(remaining[..n], placed, TailCost, MAX_TAIL_ENTRIES, budget)
    && tail == Picked(remaining[..n], placed) && used == Sum(tail, TailCost)
  }

  lemma TailNext(remaining: seq<Symbol>, n: nat, tail: seq<Symbol>, used: nat, placed: seq<bool>, budget: nat)
    requires n < |remaining| && TailSoFar(remaining, n, tail, used, placed, budget) && |tail| < MAX_TAIL_ENTRIES
    ensures (var s := remaining[n];
             if used + TailCost(s) > budget then TailSoFar(remaining, n + 1, tail, used, placed + [false], budget)
             else TailSoFar(remaining, n + 1, tail + [s], used + TailCost(s), placed + [true], budget))
  {
    var fits := used + TailCost(remaining[n]) <= budget;
    PickedTake(remaining, placed, n, fits);
    InRankOrderTake(remaining, placed, n, fits, TailCost, MAX_TAIL_ENTRIES, budget);
    SumSnoc(tail, remaining[n], TailCost);
  }

  lemma TailStops(remaining: seq<Symbol>, n: nat, tail: seq<Symbol>, used: nat, placed: seq<bool>, budget: nat)
    returns (all: seq<bool>)
    requires TailSoFar(remaining, n, tail, used, placed, budget) && |tail| >= MAX_TAIL_ENTRIES
    ensures TailSoFar(remaining, |remaining|, tail, used, all, budget)
  {
    all := LimitReached(remaining, placed, n, TailCost, MAX_TAIL_ENTRIES, budget);
    assert remaining[..|remaining|] == remaining;
  }

  ghost predicate TailDone(remaining: seq<Symbol>, tail: seq<Symbol>, used: nat, placed: seq<bool>, budget: nat,
                           truncated: bool)
  {
    && InRankOrder(remaining, placed, TailCost, MAX_TAIL_ENTRIES, budget)
    && tail == Picked(remaining, placed) && used == Sum(tail, TailCost)
    && (truncated <==> |tail| < |remaining|)
  }

  lemma TailEnds(remaining: seq<Symbol>, tail: seq<Symbol>, used: nat, placed: seq<bool>, budget: nat, truncated: bool)
    requires TailSoFar(remaining, |remaining|, tail, used, placed, budget) && (truncated <==> |tail| < |remaining|)
    ensures TailDone(remaining, tail, used, placed, budget, truncated)
  {
    assert remaining[..|remaining|] == remaining;
  }

  method PlaceSignatures(remaining: seq<Symbol>, budget: nat)
    returns (tail: seq<Symbol>, used: nat, truncated: bool, ghost placed: seq<bool>)
    ensures TailDone(remaining, tail, used, placed, budget, truncated)
  {
    tail, used, truncated, placed := [], 0, false, [];
    for i := 0 to |remaining|
      invariant TailSoFar(remaining, i, tail, used, placed, budget)
      invariant |tail| <= i && (truncated <==> |tail| < i)
    {
      if |tail| >= MAX_TAIL_ENTRIES {
        truncated := true;
        placed := TailStops(remaining, i, tail, used, placed, budget);
        TailEnds(remaining, tail, used, placed, budget, true);
        return;
      }
      var cost := TailCost(remaining[i]);
      TailNext(remaining, i, tail, used, placed, budget);
      if used + cost > budget {
        truncated, placed := true, placed + [false];
        continue;
      }
      tail, placed := tail + [remaining[i]], placed + [true];
      used := used + cost;
    }
    TailEnds(remaining, tail, used, placed, budget, truncated);
  }

  // ---- select ------------------------------------------------------------------------------------

  // What a selection guarantees for the candidates of a budget.
  ghost predicate Selects(s: BudgetSelection, changed: seq<Symbol>, candidates: seq<Symbol>, tokenBudget: nat) {
    && s.changedSymbols == changed
    && multiset(s.fullBodyNeighbors) + multiset(s.signatureOnlyNeighbors) <= multiset(candidates)
    && |s.fullBodyNeighbors| <= 20 && |s.signatureOnlyNeighbors| <= 50
    && s.budgetUsed
        == Sum(changed, FullCost) + Sum(s.fullBodyNeighbors, FullCost) + Sum(s.signatureOnlyNeighbors, TailCost)
    && (if Sum(changed, FullCost) >= tokenBudget
        then s.truncated && s.fullBodyNeighbors == [] && s.signatureOnlyNeighbors == []
        else s.budgetUsed <= tokenBudget)
    && (!s.truncated ==> multiset(s.fullBodyNeighbors) + multiset(s.signatureOnlyNeighbors) == multiset(candidates))
    && (s.truncated && Sum(changed, FullCost) < tokenBudget ==>
          |s.fullBodyNeighbors| == 20
          || multiset(s.fullBodyNeighbors) + multiset(s.signatureOnlyNeighbors) < multiset(candidates))
  }

  // A candidate gets its body exactly when those placed before it in rank order leave room
  // for it, and one without a body its signature exactly when the signatures before it do.
  ghost predicate PlacedByRank(s: BudgetSelection, candidates: seq<Symbol>, fullBudget: nat, tailBudget: nat,
                               full: seq<bool>, tail: seq<bool>)
  {
    && InRankOrder(candidates, full, FullCost, 20, fullBudget)
    && s.fullBodyNeighbors == Picked(candidates, full)
    && InRankOrder(Others(candidates, full), tail, TailCost, 50, tailBudget)
    && s.signatureOnlyNeighbors == Picked(Others(candidates, full), tail)
    && (s.truncated <==>
          Overflows(candidates, full, 20) || |s.signatureOnlyNeighbors| < |Others(candidates, full)|)
  }

  // The budget for bodies is a share of it, but no more than the changed symbols leave; the
  // one for signatures another share of what is left then.
  ghost predicate SelectsByRank(s: BudgetSelection, candidates: seq<Symbol>, left: nat, fullShare: nat,
                                tailShare: nat) {
    var fullBudget := if fullShare <= left then fullShare else left;
    var tailBudget := if tailShare <= left - fullBudget then tailShare else left - fullBudget;
    exists full, tail :: PlacedByRank(s, candidates, fullBudget, tailBudget, full, tail)
  }

  function Min(a: nat, b: nat): nat {
    if a <= b then a else b
  }

  // Both together, once the changed symbols leave something of the budget.
  ghost predicate SelectsAll(s: BudgetSelection, changed: seq<Symbol>, candidates: seq<Symbol>, tokenBudget: nat,
                             fullShare: nat, tailShare: nat)
  {
    && Selects(s, changed, candidates, tokenBudget)
    && (Sum(changed, FullCost) < tokenBudget ==>
          SelectsByRank(s, candidates, tokenBudget - Sum(changed, FullCost), fullShare, tailShare))
  }

  // fullShare and tailShare stand for the two fractions of the budget.
  method Select(changed: seq<Symbol>, ranked: seq<string>, symbolsById: map<string, Symbol>, tokenBudget: nat,
                fullShare: nat, tailShare: nat)
    returns (selection: BudgetSelection)
    ensures SelectsAll(selection, changed, Candidates(changed, ranked, symbolsById), tokenBudget, fullShare, tailShare)
  {
    var changedTokens := Sum(changed, FullCost);
    if changedTokens >= tokenBudget {
      NothingSelected(changed, Candidates(changed, ranked, symbolsById), tokenBudget, fullShare, tailShare);
      return BudgetSelection(changed, [], [], changedTokens, true);
    }
    var left := tokenBudget - changedTokens;
    var fullBudget := Min(left, fullShare);
    var tailBudget := Min(left - fullBudget, tailShare);
    var candidates := Candidates(changed, ranked, symbolsById);
    var full, usedFull, remaining, capped, fullPlaced := PlaceFullBodies(candidates, fullBudget);
    var tail, usedTail, cut, tailPlaced := PlaceSignatures(remaining, tailBudget);
    selection := BudgetSelection(changed, full, tail, changedTokens + usedFull + usedTail,
                                 capped || cut || |remaining| > |tail|);
    Selected(selection, candidates, tokenBudget, fullShare, tailShare, remaining, usedFull, usedTail, capped, cut,
             fullPlaced, tailPlaced);
  }

  lemma NothingSelected(changed: seq<Symbol>, candidates: seq<Symbol>, tokenBudget: nat, fullShare: nat, tailShare: nat)
    requires Sum(changed, FullCost) >= tokenBudget
    ensures SelectsAll(BudgetSelection(changed, [], [], Sum(changed, FullCost), true), changed, candidates, tokenBudget,
                       fullShare, tailShare)
  {
  }

  lemma Selected(s: BudgetSelection, candidates: seq<Symbol>, tokenBudget: nat, fullShare: nat, tailShare: nat,
                 remaining: seq<Symbol>, usedFull: nat, usedTail: nat, capped: bool, cut: bool, full: seq<bool>,
                 tail: seq<bool>)
    requires Sum(s.changedSymbols, FullCost) < tokenBudget
    requires s.budgetUsed == Sum(s.changedSymbols, FullCost) + usedFull + usedTail
    requires (var left := tokenBudget - Sum(s.changedSymbols, FullCost);
              var fullBudget := Min(left, fullShare);
              && FullDone(candidates, s.fullBodyNeighbors, usedFull, remaining, full, fullBudget, capped)
              && TailDone(remaining, s.signatureOnlyNeighbors, usedTail, tail, Min(left - fullBudget, tailShare), cut))
    requires s.truncated <==> capped || cut || |remaining| > |s.signatureOnlyNeighbors|
    ensures SelectsAll(s, s.changedSymbols, candidates, tokenBudget, fullShare, tailShare)
  {
    var left := tokenBudget - Sum(s.changedSymbols, FullCost);
    var fullBudget := Min(left, fullShare);
    var tailBudget := Min(left - fullBudget, tailShare);
    PlacedSo(s, candidates, remaining, fullBudget, tailBudget, usedFull, usedTail, capped, cut, full, tail);
    PlacedInShares(s, candidates, left, fullShare, tailShare, full, tail);
    SelectionFits(s, candidates, tokenBudget, fullBudget, tailBudget, full, tail);
  }

  lemma PlacedSo(s: BudgetSelection, candidates: seq<Symbol>, remaining: seq<Symbol>, fullBudget: nat,
                 tailBudget: nat, usedFull: nat, usedTail: nat, capped: bool, cut: bool, full: seq<bool>,
                 tail: seq<bool>)
    requires FullDone(candidates, s.fullBodyNeighbors, usedFull, remaining, full, fullBudget, capped)
    requires TailDone(remaining, s.signatureOnlyNeighbors, usedTail, tail, tailBudget, cut)
    requires s.truncated <==> capped || cut || |remaining| > |s.signatureOnlyNeighbors|
    ensures PlacedByRank(s, candidates, fullBudget, tailBudget, full, tail)
    ensures usedFull == Sum(s.fullBodyNeighbors, FullCost) && usedTail == Sum(s.signatureOnlyNeighbors, TailCost)
  {
  }

  lemma PlacedInShares(s: BudgetSelection, candidates: seq<Symbol>, left: nat, fullShare: nat, tailShare: nat,
                       full: seq<bool>, tail: seq<bool>)
    requires (var fullBudget := Min(left, fullShare);
              PlacedByRank(s, candidates, fullBudget, Min(left - fullBudget, tailShare), full, tail))
    ensures SelectsByRank(s, candidates, left, fullShare, tailShare)
  {
    var fullBudget := if fullShare <= left then fullShare else left;
    var tailBudget := if tailShare <= left - fullBudget then tailShare else left - fullBudget;
    assert Min(left, fullShare) == fullBudget && Min(left - fullBudget, tailShare) == tailBudget;
    assert PlacedByRank(s, candidates, fullBudget, tailBudget, full, tail);
  }

  lemma SelectionFits(s: BudgetSelection, candidates: seq<Symbol>, tokenBudget: nat, fullBudget: nat, tailBudget: nat,
                      full: seq<bool>, tail: seq<bool>)
    requires Sum(s.changedSymbols, FullCost) + fullBudget + tailBudget <= tokenBudget
        && Sum(s.changedSymbols, FullCost) < tokenBudget
    requires PlacedByRank(s, candidates, fullBudget, tailBudget, full, tail)
    requires s.budgetUsed
        == Sum(s.changedSymbols, FullCost) + Sum(s.fullBodyNeighbors, FullCost)
            + Sum(s.signatureOnlyNeighbors, TailCost)
    ensures Selects(s, s.changedSymbols, candidates, tokenBudget)
  {
    var remaining := Others(candidates, full);
    PlacedWithin(candidates, full, FullCost, 20, fullBudget);
    PlacedWithin(remaining, tail, TailCost, 50, tailBudget);
    PickedBag(candidates, full);
    PickedBag(remaining, tail);
    if Overflows(candidates, full, 20) {
      OverflowIsFull(candidates, full, FullCost, 20, fullBudget);
    }
    if |s.signatureOnlyNeighbors| < |remaining| {
      assert |multiset(s.signatureOnlyNeighbors)| < |multiset(remaining)|;
    }
  }

  // Where somebody comes after the limit, exactly as many as allowed are placed.
  lemma {:induction false} OverflowIsFull<T>(xs: seq<T>, placed: seq<bool>, cost: T -> nat, limit: nat, budget: nat)
    requires InRankOrder(xs, placed, cost, limit, budget) && Overflows(xs, placed, limit)
    ensures |Picked(xs, placed)| >= limit
  {
    var i :| 0 <= i < |xs| && FullAt(xs, placed, i, limit);
    PickedGrows(xs, placed, i);
  }

  lemma {:induction false} PickedGrows<T>(xs: seq<T>, placed: seq<bool>, i: nat)
    requires |placed| == |xs| && i <= |xs|
    ensures |Picked(xs[..i], placed[..i])| <= |Picked(xs, placed)|
  {
    if i < |xs| {
      PickedGrows(xs[..|xs| - 1], placed[..|xs| - 1], i);
      assert xs[..|xs| - 1][..i] == xs[..i] && placed[..|xs| - 1][..i] == placed[..i];
    } else {
      assert xs[..i] == xs && placed[..i] == placed;
    }
  }
}
