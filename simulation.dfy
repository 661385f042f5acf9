/** One Swiss-draw tournament from start to finish (swiss_simulation.py:5-74). */
module SwissSimulation {
  import opened SwissRecords
  import opened SwissRound
  import opened SwissStandings

  /** Lines 5-74: `players` fresh entrants play `rounds` rounds; the finishers
      are ranked by (wins, opponent win percentage); `loss0` and `loss1` count
      the unbeaten and the one-loss finishers, and `results` breaks the one-loss
      finishers down by the round they lost in. `states` and `pools` are the
      records and the pool before round 1 and after each round, `finalRecs`
      the records of every entrant at the end, `finalPool` the finishers
      (retired and deferred players are not among them), and `ranking` the
      sorted final list. */
  method SwissDrawSimulation(players: int, rounds: int, qualify: int, rng: Rng)
    returns (results: map<nat, Tally>, loss0: nat, loss1: nat,
             ghost states: seq<seq<Record>>, ghost pools: seq<seq<nat>>,
             ghost finalRecs: seq<Record>, ghost finalPool: seq<nat>, ghost ranking: seq<Standing>)
    ensures |finalRecs| == (if players > 0 then players else 0)
    ensures |states| == Played(rounds) + 1 && Trace(states, pools)
    ensures |states[0]| == |finalRecs| && forall id :: 0 <= id < |states[0]| ==> states[0][id] == Fresh
    ensures |pools[0]| == |finalRecs| && forall i :: 0 <= i < |pools[0]| ==> pools[0][i] == i
    ensures states[Played(rounds)] == finalRecs && pools[Played(rounds)] == finalPool
    ensures PoolInvariant(finalRecs, finalPool, Played(rounds))
    ensures multiset(ranking) == multiset(Standings(finalRecs, finalPool))
    ensures Ranked(ranking)
    ensures loss0 == CountUnbeaten(ranking, rounds) && loss1 == CountOneLoss(ranking, rounds)
    ensures loss0 == CountUnbeaten(Standings(finalRecs, finalPool), rounds)
    ensures loss1 == CountOneLoss(Standings(finalRecs, finalPool), rounds)
    ensures forall k :: 0 <= k < |ranking| ==> (Unbeaten(ranking[k], rounds) <==> k < loss0)
    ensures loss0 + loss1 <= |ranking| <= |finalRecs|
    ensures loss0 <= Halve(|finalRecs|, Played(rounds))
    ensures forall x :: x in results <==> Tallied(ranking, rounds, qualify, x).total > 0
    ensures forall x :: Get(results, x) == Tallied(ranking, rounds, qualify, x)
    ensures forall x :: x in results ==> 1 <= x <= rounds && results[x].qualified <= results[x].total
    ensures SumTotals(results, rounds) == loss1
    ensures SumQualified(results, rounds) == CountOneLoss(ranking[..Places(qualify, |ranking|)], rounds)
    ensures SumQualified(results, rounds) <= if qualify > 0 then qualify else 0
  {
    var n := if players > 0 then players else 0;
    var arena, pool := Entrants(n);
    pool, states, pools := PlayRounds(arena, pool, rounds, rng);
    finalRecs, finalPool := arena[..], pool;
    results, loss0, loss1, ranking := FinalStandings(arena[..], pool, rounds, qualify);
    UnbeatenHalved(states, pools, rounds);
  }

  /** Line 6: a fresh record for each of `n` entrants, and the pool of all their ids. */
  method Entrants(n: nat) returns (arena: array<Record>, pool: seq<nat>)
    ensures fresh(arena) && arena.Length == n
    ensures forall id :: 0 <= id < n ==> arena[id] == Fresh
    ensures |pool| == n && forall i :: 0 <= i < n ==> pool[i] == i
  {
    arena := new Record[n](_ => Fresh);
    pool := seq(n, (i: int) requires 0 <= i < n => i as nat);
  }

  /** Lines 8-50: play the rounds 1..`rounds` on the arena, starting from the
      pool of every entrant with a fresh record. */
  method PlayRounds(arena: array<Record>, pool: seq<nat>, rounds: int, rng: Rng)
    returns (finalPool: seq<nat>, ghost states: seq<seq<Record>>, ghost pools: seq<seq<nat>>)
    requires forall id :: 0 <= id < arena.Length ==> arena[id] == Fresh
    requires |pool| == arena.Length && forall i :: 0 <= i < |pool| ==> pool[i] == i
    modifies arena
    ensures |states| == Played(rounds) + 1 && Trace(states, pools)
    ensures states[0] == old(arena[..]) && pools[0] == pool
    ensures states[Played(rounds)] == arena[..] && pools[Played(rounds)] == finalPool
    ensures PoolInvariant(arena[..], finalPool, Played(rounds))
    ensures |finalPool| <= arena.Length
  {
    FreshStart(arena[..], pool);
    finalPool := pool;
    states, pools := [arena[..]], [pool];
    var round := 1;
    while round <= rounds
      invariant 1 <= round <= Played(rounds) + 1
      invariant |finalPool| <= arena.Length
      invariant PoolInvariant(arena[..], finalPool, round - 1)
      invariant |states| == round && Trace(states, pools)
      invariant states[0] == old(arena[..]) && pools[0] == pool
      invariant states[round - 1] == arena[..] && pools[round - 1] == finalPool
    {
      ghost var start := arena[..];
      var newPool, deferred, extras := PlayRound(arena, finalPool, round, rng);
      RoundKeepsInvariant(start, arena[..], finalPool, newPool, deferred, extras, round);
      assert RoundStep(start, arena[..], finalPool, newPool, round);
      TraceExtends(states, pools, arena[..], newPool);
      states, pools := states + [arena[..]], pools + [newPool];
      finalPool := newPool;
      round := round + 1;
    }
  }

  /** `states` and `pools` hold the records and the pool before round 1 and
      after each round played: each entry is what one round makes of the
      entry before it. */
  ghost predicate Trace(states: seq<seq<Record>>, pools: seq<seq<nat>>) {
    && |states| == |pools| && |states| >= 1
    && forall r :: 0 <= r < |states| - 1 ==>
         RoundStep(states[r], states[r + 1], pools[r], pools[r + 1], r + 1)
  }

  /** One more round extends the trace. */
  lemma TraceExtends(states: seq<seq<Record>>, pools: seq<seq<nat>>, now: seq<Record>, newPool: seq<nat>)
    requires Trace(states, pools)
    requires RoundStep(states[|states| - 1], now, pools[|pools| - 1], newPool, |states|)
    ensures Trace(states + [now], pools + [newPool])
  {
    var states', pools' := states + [now], pools + [newPool];
    forall r | 0 <= r < |states'| - 1
      ensures RoundStep(states'[r], states'[r + 1], pools'[r], pools'[r + 1], r + 1)
    {
      if r < |states| - 1 {
        assert states'[r] == states[r] && states'[r + 1] == states[r + 1];
        assert pools'[r] == pools[r] && pools'[r + 1] == pools[r + 1];
      }
    }
  }

  /** Line 6: before round 1 every record is fresh and the pool lists every
      entrant once, so the invariant holds with no round played. */
  lemma FreshStart(recs: seq<Record>, pool: seq<nat>)
    requires forall id :: 0 <= id < |recs| ==> recs[id] == Fresh
    requires |pool| == |recs| && forall i :: 0 <= i < |pool| ==> pool[i] == i
    ensures PoolInvariant(recs, pool, 0)
  {
    forall id | id in pool
      ensures id < |recs| && recs[id].wins + recs[id].losses == 0
    {
      var i :| 0 <= i < |pool| && pool[i] == id;
    }
  }

  /** `n` halved `k` times, rounding down each time: `n / 2^k`. */
  function Halve(n: nat, k: nat): nat {
    if k == 0 then n else Halve(n, k - 1) / 2
  }

  /** Halving keeps order. */
  lemma {:induction false} HalveMonotone(m: nat, n: nat, k: nat)
    requires m <= n
    ensures Halve(m, k) <= Halve(n, k)
  {
    if k > 0 {
      HalveMonotone(m, n, k - 1);
    }
  }

  /** Lines 8-50 over `r` rounds: the invariant holds after each round, and the
      players without a loss shrink at least by half per round. */
  lemma {:induction false} TraceHalves(states: seq<seq<Record>>, pools: seq<seq<nat>>, r: nat)
    requires Trace(states, pools) && r < |states|
    requires PoolInvariant(states[0], pools[0], 0)
    ensures PoolInvariant(states[r], pools[r], r)
    ensures |UndefeatedSet(states[r], pools[r])| <= Halve(|UndefeatedSet(states[0], pools[0])|, r)
  {
    if r > 0 {
      TraceHalves(states, pools, r - 1);
      TraceStepHalves(states, pools, r);
      var first := |UndefeatedSet(states[0], pools[0])|;
      assert Halve(first, r) == Halve(first, r - 1) / 2;
    }
  }

  /** Round `r` of the trace keeps the invariant and halves the players without a loss. */
  lemma TraceStepHalves(states: seq<seq<Record>>, pools: seq<seq<nat>>, r: nat)
    requires Trace(states, pools) && 0 < r < |states|
    requires PoolInvariant(states[r - 1], pools[r - 1], r - 1)
    ensures PoolInvariant(states[r], pools[r], r)
    ensures 2 * |UndefeatedSet(states[r], pools[r])| <= |UndefeatedSet(states[r - 1], pools[r - 1])|
  {
    assert RoundStep(states[r - 1], states[r], pools[r - 1], pools[r], r);
    var deferred, extras :| RoundOutcome(states[r - 1], states[r], pools[r - 1], pools[r], deferred, extras, r);
    RoundKeepsInvariant(states[r - 1], states[r], pools[r - 1], pools[r], deferred, extras, r);
    RoundHalvesUndefeated(states[r - 1], states[r], pools[r - 1], pools[r], deferred, extras, r);
  }

  /** Lines 64-65: an unbeaten finisher is a finisher without a loss. */
  lemma {:induction false} UnbeatenUndefeated(recs: seq<Record>, pool: seq<nat>, rounds: int)
    requires Distinct(pool) && AllIn(pool, |recs|)
    requires forall id :: id in pool ==> AllIn(recs[id].opponents, |recs|)
    ensures CountUnbeaten(Standings(recs, pool), rounds) <= |UndefeatedSet(recs, pool)|
  {
    if pool != [] {
      var rest, last := pool[..|pool| - 1], pool[|pool| - 1];
      assert pool == rest + [last];
      assert last !in rest;
      UnbeatenUndefeated(recs, rest, rounds);
      var s := Standings(recs, pool);
      assert s[..|s| - 1] == Standings(recs, rest);
      assert CountUnbeaten(s, rounds)
          == CountUnbeaten(Standings(recs, rest), rounds) + (if Unbeaten(s[|s| - 1], rounds) then 1 else 0);
      UndefeatedSnoc(recs, rest, last);
    }
  }

  lemma UndefeatedSnoc(recs: seq<Record>, rest: seq<nat>, last: nat)
    requires last !in rest && last < |recs|
    ensures |UndefeatedSet(recs, rest + [last])|
            == |UndefeatedSet(recs, rest)| + (if recs[last].losses == 0 then 1 else 0)
  {
    var before, after := UndefeatedSet(recs, rest), UndefeatedSet(recs, rest + [last]);
    if recs[last].losses == 0 {
      assert after == before + {last};
    } else {
      assert after == before;
    }
  }

  /** Lines 8-65: with one result per round and every unbeaten player's win
      costing another player the same, at most `players / 2^rounds` finishers
      are unbeaten; 8 players over 3 rounds leave at most one. */
  lemma UnbeatenHalved(states: seq<seq<Record>>, pools: seq<seq<nat>>, rounds: int)
    requires |states| == Played(rounds) + 1 && Trace(states, pools)
    requires forall id :: 0 <= id < |states[0]| ==> states[0][id] == Fresh
    requires |pools[0]| == |states[0]| && forall i :: 0 <= i < |pools[0]| ==> pools[0][i] == i
    requires PoolInvariant(states[Played(rounds)], pools[Played(rounds)], Played(rounds))
    ensures CountUnbeaten(Standings(states[Played(rounds)], pools[Played(rounds)]), rounds)
              <= Halve(|states[0]|, Played(rounds))
  {
    var last := Played(rounds);
    FreshStart(states[0], pools[0]);
    TraceHalves(states, pools, last);
    SetFromListCard(pools[0], UndefeatedSet(states[0], pools[0]));
    HalveMonotone(|UndefeatedSet(states[0], pools[0])|, |states[0]|, last);
    UnbeatenUndefeated(states[last], pools[last], rounds);
  }

  /** Lines 52-74 on the records after the last round: attach the tie-break,
      rank, count, and tally the one-loss finishers by loss round. */
  method FinalStandings(recs: seq<Record>, pool: seq<nat>, rounds: int, qualify: int)
    returns (results: map<nat, Tally>, loss0: nat, loss1: nat, ghost ranking: seq<Standing>)
    requires PoolInvariant(recs, pool, Played(rounds))
    ensures multiset(ranking) == multiset(Standings(recs, pool))
    ensures Ranked(ranking)
    ensures loss0 == CountUnbeaten(ranking, rounds) && loss1 == CountOneLoss(ranking, rounds)
    ensures loss0 == CountUnbeaten(Standings(recs, pool), rounds)
    ensures loss1 == CountOneLoss(Standings(recs, pool), rounds)
    ensures forall k :: 0 <= k < |ranking| ==> (Unbeaten(ranking[k], rounds) <==> k < loss0)
    ensures loss0 + loss1 <= |ranking| == |pool|
    ensures forall x :: x in results <==> Tallied(ranking, rounds, qualify, x).total > 0
    ensures forall x :: Get(results, x) == Tallied(ranking, rounds, qualify, x)
    ensures forall x :: x in results ==> 1 <= x <= rounds && results[x].qualified <= results[x].total
    ensures SumTotals(results, rounds) == loss1
    ensures SumQualified(results, rounds) == CountOneLoss(ranking[..Places(qualify, |ranking|)], rounds)
    ensures SumQualified(results, rounds) <= if qualify > 0 then qualify else 0
  {
    assert forall id :: id in pool ==> WellFormed(recs[id], Played(rounds), |recs|);
    var standings := AttachOwp(recs, pool);
    var a := new Standing[|standings|](i requires 0 <= i < |standings| => standings[i]);
    assert a[..] == standings;
    Rank(a);
    var ranked := a[..];
    ranking := ranked;
    loss0 := CountUnbeaten(ranked, rounds);
    loss1 := CountOneLoss(ranked, rounds);
    CountsDisjoint(ranked, rounds);
    results := TallyLossRounds(ranked, rounds, qualify);
    FinishersPlayedOut(recs, pool, ranked, rounds);
    CountsPermute(ranked, standings, rounds);
    UnbeatenLead(ranked, rounds);
    TallySummary(results, ranked, rounds, qualify);
  }

  /** After the last round every finisher's loss rounds are rounds played. */
  lemma FinishersPlayedOut(recs: seq<Record>, pool: seq<nat>, ranking: seq<Standing>, rounds: int)
    requires PoolInvariant(recs, pool, Played(rounds))
    requires multiset(ranking) == multiset(Standings(recs, pool))
    ensures |ranking| == |pool|
    ensures forall k :: 0 <= k < |ranking| ==> LossRoundsWithin(ranking[k], rounds)
    ensures forall k :: 0 <= k < |ranking| ==> ranking[k].wins + ranking[k].losses == Played(rounds)
  {
    var standings := Standings(recs, pool);
    assert |multiset(ranking)| == |multiset(standings)|;
    forall k | 0 <= k < |ranking|
      ensures LossRoundsWithin(ranking[k], rounds)
      ensures ranking[k].wins + ranking[k].losses == Played(rounds)
    {
      assert ranking[k] in multiset(standings);
      var i :| 0 <= i < |standings| && standings[i] == ranking[k];
      assert WellFormed(recs[pool[i]], Played(rounds), |recs|);
    }
  }
}
