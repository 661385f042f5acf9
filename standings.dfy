/** The final standings of one Swiss-draw tournament (swiss_simulation.py:52-74):
    the opponent-win-percentage tie-break, the ranking, the counts of unbeaten and
    one-loss finishers, and the breakdown of one-loss finishers by the round of
    their loss. */
module SwissStandings {
  import opened SwissRecords

  /** A finisher's line in the final list: its record and the tie-break attached
      to it (line 58). */
  datatype Standing = Standing(id: nat, wins: nat, losses: nat, lossRounds: seq<nat>, owp: real)

  /** Line 58: the floor of the opponent win percentage. */
  const OwpFloor: real := 0.33

  /** Line 54: the final wins of the listed opponents, summed: nothing without
      opponents, and never less than any one opponent's wins. */
  function OpponentWins(recs: seq<Record>, opponents: seq<nat>): (t: nat)
    requires AllIn(opponents, |recs|)
    ensures opponents == [] ==> t == 0
    ensures forall i :: 0 <= i < |opponents| ==> recs[opponents[i]].wins <= t
  {
    if opponents == [] then 0
    else OpponentWins(recs, opponents[..|opponents| - 1]) + recs[opponents[|opponents| - 1]].wins
  }

  /** Lines 54-56: the mean of the opponents' wins, 0 without opponents. */
  function MeanOpponentWins(recs: seq<Record>, opponents: seq<nat>): (m: real)
    requires AllIn(opponents, |recs|)
    ensures m >= 0.0
    ensures opponents == [] ==> m == 0.0
    ensures opponents != [] ==> m * |opponents| as real == OpponentWins(recs, opponents) as real
  {
    if |opponents| > 0 then OpponentWins(recs, opponents) as real / |opponents| as real else 0.0
  }

  /** Lines 54-58: the opponent win percentage of `r`, read from the final
      records of its opponents: the mean, floored at 0.33. No division happens
      without opponents. */
  function OpponentWinPercentage(recs: seq<Record>, r: Record): (p: real)
    requires AllIn(r.opponents, |recs|)
    ensures p >= OwpFloor && p >= MeanOpponentWins(recs, r.opponents)
    ensures p == OwpFloor || p == MeanOpponentWins(recs, r.opponents)
    ensures r.opponents == [] ==> p == OwpFloor
  {
    var mean := MeanOpponentWins(recs, r.opponents);
    if mean >= OwpFloor then mean else OwpFloor
  }

  lemma {:induction false} OpponentWinsBounded(recs: seq<Record>, opponents: seq<nat>, k: nat)
    requires AllIn(opponents, |recs|)
    requires forall i :: 0 <= i < |opponents| ==> recs[opponents[i]].wins <= k
    ensures OpponentWins(recs, opponents) <= k * |opponents|
  {
    if opponents != [] {
      var t := opponents[..|opponents| - 1];
      assert forall i :: 0 <= i < |t| ==> t[i] == opponents[i];
      OpponentWinsBounded(recs, t, k);
      assert recs[opponents[|t|]].wins <= k;
      assert k * |opponents| == k * |t| + k;
    }
  }

  /** When no opponent of `r` finished with more than `k` wins, its opponent
      win percentage is at most `k`, or the floor when that is larger. */
  lemma OwpBounded(recs: seq<Record>, r: Record, k: nat)
    requires AllIn(r.opponents, |recs|)
    requires forall i :: 0 <= i < |r.opponents| ==> recs[r.opponents[i]].wins <= k
    ensures OpponentWinPercentage(recs, r) <= if k as real >= OwpFloor then k as real else OwpFloor
  {
    OpponentWinsBounded(recs, r.opponents, k);
    if |r.opponents| > 0 {
      MeanAtMost(OpponentWins(recs, r.opponents), |r.opponents|, k);
    }
  }

  lemma MeanAtMost(w: nat, n: nat, k: nat)
    requires n > 0 && w <= k * n
    ensures w as real / n as real <= k as real
  {
    assert (k * n) as real == k as real * n as real;
    QuotientAtMost(w as real, n as real, k as real);
  }

  lemma QuotientAtMost(a: real, b: real, c: real)
    requires b > 0.0 && a <= c * b
    ensures a / b <= c
  {
    var q := a / b;
    assert q * b == a;
    assert (q - c) * b <= 0.0;
  }

  /** The standing of player `id` once the tie-break is attached. */
  function StandingOf(recs: seq<Record>, id: nat): (s: Standing)
    requires id < |recs| && AllIn(recs[id].opponents, |recs|)
    ensures s.id == id && s.owp >= OwpFloor
    ensures s.wins == recs[id].wins && s.losses == recs[id].losses
    ensures s.lossRounds == recs[id].lossRounds
    ensures s.owp == OpponentWinPercentage(recs, recs[id])
  {
    var r := recs[id];
    Standing(id, r.wins, r.losses, r.lossRounds, OpponentWinPercentage(recs, r))
  }

  /** The standings of the players of `pool`, in pool order. */
  function Standings(recs: seq<Record>, pool: seq<nat>): (s: seq<Standing>)
    requires AllIn(pool, |recs|)
    requires forall id :: id in pool ==> AllIn(recs[id].opponents, |recs|)
    ensures |s| == |pool|
    ensures forall i :: 0 <= i < |pool| ==> s[i] == StandingOf(recs, pool[i])
  {
    if pool == [] then []
    else Standings(recs, pool[..|pool| - 1]) + [StandingOf(recs, pool[|pool| - 1])]
  }

  /** Lines 53-58: attach the tie-break to every record still in the pool. */
  method AttachOwp(recs: seq<Record>, pool: seq<nat>) returns (standings: seq<Standing>)
    requires AllIn(pool, |recs|)
    requires forall id :: id in pool ==> AllIn(recs[id].opponents, |recs|)
    ensures standings == Standings(recs, pool)
  {
    standings := [];
    for i := 0 to |pool|
      invariant |standings| == i
      invariant forall k :: 0 <= k < i ==> standings[k] == StandingOf(recs, pool[k])
    {
      assert pool[i] in pool;
      standings := standings + [StandingOf(recs, pool[i])];
    }
  }

  /** Line 60: `a` ranks at least as high as `b` under the key (wins, owp),
      larger first. */
  predicate RanksAtLeast(a: Standing, b: Standing) {
    a.wins > b.wins || (a.wins == b.wins && a.owp >= b.owp)
  }

  predicate Ranked(s: seq<Standing>) {
    forall i, j :: 0 <= i < j < |s| ==> RanksAtLeast(s[i], s[j])
  }

  lemma RanksTransitive(a: Standing, b: Standing, c: Standing)
    requires RanksAtLeast(a, b) && RanksAtLeast(b, c)
    ensures RanksAtLeast(a, c)
  {
  }

  /** Line 60: sort the standings in place by (wins, owp), largest first, by
      insertion with adjacent swaps. */
  method Rank(a: array<Standing>)
    modifies a
    ensures Ranked(a[..])
    ensures multiset(a[..]) == multiset(old(a[..]))
  {
    var i := 0;
    while i < a.Length
      invariant 0 <= i <= a.Length
      invariant forall p, q :: 0 <= p < q < i ==> RanksAtLeast(a[p], a[q])
      invariant multiset(a[..]) == multiset(old(a[..]))
    {
      Insert(a, i);
      i := i + 1;
    }
  }

  /** Move `a[i]` left past every line that ranks strictly below it, so that
      the sorted prefix `a[..i]` grows by one. */
  method Insert(a: array<Standing>, i: nat)
    requires i < a.Length
    requires forall p, q :: 0 <= p < q < i ==> RanksAtLeast(a[p], a[q])
    modifies a
    ensures forall p, q :: 0 <= p < q <= i ==> RanksAtLeast(a[p], a[q])
    ensures multiset(a[..]) == multiset(old(a[..]))
  {
    var j := i;
    while j > 0 && !RanksAtLeast(a[j - 1], a[j])
      invariant 0 <= j <= i
      invariant forall p, q :: 0 <= p < q <= i && p != j && q != j ==> RanksAtLeast(a[p], a[q])
      invariant forall q :: j < q <= i ==> RanksAtLeast(a[j], a[q])
      invariant multiset(a[..]) == multiset(old(a[..]))
    {
      a[j - 1], a[j] := a[j], a[j - 1];
      j := j - 1;
    }
    forall p | 0 <= p < j
      ensures RanksAtLeast(a[p], a[j])
    {
      if p < j - 1 {
        RanksTransitive(a[p], a[j - 1], a[j]);
      }
    }
  }

  /** Line 63: finished with every round won. */
  predicate Unbeaten(s: Standing, rounds: int) {
    s.wins as int == rounds && s.losses == 0
  }

  /** Line 64: finished with one loss and every other round won. */
  predicate OneLoss(s: Standing, rounds: int) {
    s.wins as int == rounds - 1 && s.losses == 1
  }

  /** Line 63: how many lines of `s` are unbeaten; none exactly when no line is. */
  function CountUnbeaten(s: seq<Standing>, rounds: int): (c: nat)
    ensures c <= |s|
    ensures c == 0 <==> forall k :: 0 <= k < |s| ==> !Unbeaten(s[k], rounds)
  {
    if s == [] then 0
    else CountUnbeaten(s[..|s| - 1], rounds) + (if Unbeaten(s[|s| - 1], rounds) then 1 else 0)
  }

  /** Line 64: how many lines of `s` have one loss; none exactly when no line has. */
  function CountOneLoss(s: seq<Standing>, rounds: int): (c: nat)
    ensures c <= |s|
    ensures c == 0 <==> forall k :: 0 <= k < |s| ==> !OneLoss(s[k], rounds)
  {
    if s == [] then 0
    else CountOneLoss(s[..|s| - 1], rounds) + (if OneLoss(s[|s| - 1], rounds) then 1 else 0)
  }

  /** Both counts add up over a concatenation. */
  lemma {:induction false} CountsConcat(a: seq<Standing>, b: seq<Standing>, rounds: int)
    ensures CountUnbeaten(a + b, rounds) == CountUnbeaten(a, rounds) + CountUnbeaten(b, rounds)
    ensures CountOneLoss(a + b, rounds) == CountOneLoss(a, rounds) + CountOneLoss(b, rounds)
  {
    if b == [] {
      assert a + b == a;
    } else {
      var t := b[..|b| - 1];
      CountsConcat(a, t, rounds);
      assert (a + b)[..|a + b| - 1] == a + t;
    }
  }

  /** Lines 60-64: the counts do not depend on the order of the lines, so
      counting after the sort counts the finishers themselves. */
  lemma {:induction false} CountsPermute(a: seq<Standing>, b: seq<Standing>, rounds: int)
    requires multiset(a) == multiset(b)
    ensures CountUnbeaten(a, rounds) == CountUnbeaten(b, rounds)
    ensures CountOneLoss(a, rounds) == CountOneLoss(b, rounds)
  {
    if a != [] {
      var x, rest := a[|a| - 1], a[..|a| - 1];
      assert a == rest + [x];
      assert x in multiset(b);
      var j :| 0 <= j < |b| && b[j] == x;
      var others := b[..j] + b[j + 1..];
      RemoveOne(b, j);
      assert multiset(rest) == multiset(a) - multiset{x};
      CountsPermute(rest, others, rounds);
      CountsWithout(b, j, rounds);
    }
  }

  lemma RemoveOne(b: seq<Standing>, j: nat)
    requires j < |b|
    ensures multiset(b[..j] + b[j + 1..]) == multiset(b) - multiset{b[j]}
  {
    assert b == b[..j] + [b[j]] + b[j + 1..];
  }

  /** Removing line `j` lowers each count by one exactly when that line is counted. */
  lemma CountsWithout(b: seq<Standing>, j: nat, rounds: int)
    requires j < |b|
    ensures CountUnbeaten(b, rounds)
         == CountUnbeaten(b[..j] + b[j + 1..], rounds) + (if Unbeaten(b[j], rounds) then 1 else 0)
    ensures CountOneLoss(b, rounds)
         == CountOneLoss(b[..j] + b[j + 1..], rounds) + (if OneLoss(b[j], rounds) then 1 else 0)
  {
    var u, v := b[..j], b[j + 1..];
    assert b == (u + [b[j]]) + v;
    CountsConcat(u, v, rounds);
    CountsConcat(u, [b[j]], rounds);
    CountsConcat(u + [b[j]], v, rounds);
  }

  /** Lines 63-64: nobody is both unbeaten and a one-loss finisher. */
  lemma {:induction false} CountsDisjoint(s: seq<Standing>, rounds: int)
    ensures CountUnbeaten(s, rounds) + CountOneLoss(s, rounds) <= |s|
  {
    if s != [] {
      CountsDisjoint(s[..|s| - 1], rounds);
    }
  }

  /** Lines 60 and 63: in a ranking of finishers who each have one result
      per round played, the unbeaten finishers are exactly the first
      `CountUnbeaten` lines. */
  lemma {:induction false} UnbeatenLead(s: seq<Standing>, rounds: int)
    requires Ranked(s)
    requires forall k :: 0 <= k < |s| ==> s[k].wins + s[k].losses == Played(rounds)
    ensures forall k :: 0 <= k < |s| ==> (Unbeaten(s[k], rounds) <==> k < CountUnbeaten(s, rounds))
  {
    if s != [] {
      var t, last := s[..|s| - 1], s[|s| - 1];
      assert forall k :: 0 <= k < |t| ==> t[k] == s[k];
      UnbeatenLead(t, rounds);
      if Unbeaten(last, rounds) {
        forall k | 0 <= k < |t|
          ensures Unbeaten(t[k], rounds)
        {
          assert RanksAtLeast(s[k], last);
        }
      }
    }
  }

  /** One line of `results` (lines 62, 70-72): a missing count reads as 0. */
  datatype Tally = Tally(total: nat, qualified: nat)

  /** `results[x]` as the nested `defaultdict` reads it. */
  function Get(results: map<nat, Tally>, x: nat): Tally {
    if x in results then results[x] else Tally(0, 0)
  }

  /** Lines 67-72 over the ranking `s`, for loss round `x`: each one-loss
      finisher adds one to `total` per occurrence of `x` among its loss rounds,
      and as much to `qualified` when its rank (its index) is below `qualify`. */
  function Tallied(s: seq<Standing>, rounds: int, qualify: int, x: nat): (t: Tally)
    ensures t.qualified <= t.total
  {
    if s == [] then Tally(0, 0)
    else
      var t := Tallied(s[..|s| - 1], rounds, qualify, x);
      var last := s[|s| - 1];
      if OneLoss(last, rounds) then Counted(t, last.lossRounds, x, |s| - 1 < qualify) else t
  }

  /** Lines 62, 67-72: the breakdown of one-loss finishers by loss round. A
      round is a key exactly when some one-loss finisher lost in it. */
  method TallyLossRounds(ranking: seq<Standing>, rounds: int, qualify: int)
    returns (results: map<nat, Tally>)
    ensures forall x :: x in results <==> Tallied(ranking, rounds, qualify, x).total > 0
    ensures forall x :: Get(results, x) == Tallied(ranking, rounds, qualify, x)
  {
    results := map[];
    for rank := 0 to |ranking|
      invariant forall x :: Get(results, x) == Tallied(ranking[..rank], rounds, qualify, x)
      invariant forall x :: x in results ==> results[x].total > 0
    {
      var record := ranking[rank];
      assert ranking[..rank + 1][..rank] == ranking[..rank];
      if record.wins as int == rounds - 1 && record.losses == 1 {
        results := TallyLosses(results, record.lossRounds, rank < qualify);
      }
    }
    assert ranking[..|ranking|] == ranking;
  }

  /** Lines 69-72 for one one-loss finisher: count each of its loss rounds, as
      qualified too when it `qualifies`. */
  method TallyLosses(results: map<nat, Tally>, lossRounds: seq<nat>, qualifies: bool)
    returns (results': map<nat, Tally>)
    requires forall x :: x in results ==> results[x].total > 0
    ensures forall x :: Get(results', x) == Counted(Get(results, x), lossRounds, x, qualifies)
    ensures forall x :: x in results' ==> results'[x].total > 0
  {
    results' := results;
    for k := 0 to |lossRounds|
      invariant forall x :: Get(results', x) == Counted(Get(results, x), lossRounds[..k], x, qualifies)
      invariant forall x :: x in results' ==> results'[x].total > 0
    {
      var lossRound := lossRounds[k];
      var t := Get(results', lossRound);
      t := t.(total := t.total + 1);
      if qualifies {
        t := t.(qualified := t.qualified + 1);
      }
      ghost var before := results';
      results' := results'[lossRound := t];
      forall x ensures Get(results', x) == Counted(Get(results, x), lossRounds[..k + 1], x, qualifies) {
        CountedStep(Get(results, x), lossRounds, k, x, qualifies);
      }
    }
    assert lossRounds[..|lossRounds|] == lossRounds;
  }

  lemma CountedStep(t: Tally, lossRounds: seq<nat>, k: nat, x: nat, qualifies: bool)
    requires k < |lossRounds|
    ensures var c, c' := Counted(t, lossRounds[..k], x, qualifies), Counted(t, lossRounds[..k + 1], x, qualifies);
      if lossRounds[k] == x
      then c' == Tally(c.total + 1, c.qualified + if qualifies then 1 else 0)
      else c' == c
  {
    assert lossRounds[..k + 1] == lossRounds[..k] + [lossRounds[k]];
  }

  /** `t` after adding the occurrences of `x` in `lossRounds`, to `qualified`
      as well when `qualifies`. */
  function Counted(t: Tally, lossRounds: seq<nat>, x: nat, qualifies: bool): Tally {
    var occ := multiset(lossRounds)[x];
    Tally(t.total + occ, t.qualified + (if qualifies then occ else 0))
  }

  /** What the records of the finishers satisfy after `rounds` rounds: one loss
      round per loss, each one of the rounds played. */
  predicate LossRoundsWithin(st: Standing, rounds: int) {
    LossesLogged(st.losses, st.lossRounds, rounds)
  }

  /** The sum of `total` over the loss rounds 1..`hi` of `results`. */
  function SumTotals(results: map<nat, Tally>, hi: int): nat
    decreases hi
  {
    if hi < 1 then 0 else SumTotals(results, hi - 1) + Get(results, hi).total
  }

  /** The sum of `qualified` over the loss rounds 1..`hi` of `results`. */
  function SumQualified(results: map<nat, Tally>, hi: int): nat
    decreases hi
  {
    if hi < 1 then 0 else SumQualified(results, hi - 1) + Get(results, hi).qualified
  }

  function TalliedTotals(s: seq<Standing>, rounds: int, qualify: int, hi: int): nat
    decreases hi
  {
    if hi < 1 then 0 else TalliedTotals(s, rounds, qualify, hi - 1) + Tallied(s, rounds, qualify, hi).total
  }

  function TalliedQualified(s: seq<Standing>, rounds: int, qualify: int, hi: int): nat
    decreases hi
  {
    if hi < 1 then 0 else TalliedQualified(s, rounds, qualify, hi - 1) + Tallied(s, rounds, qualify, hi).qualified
  }

  /** How many entries of `lossRounds` lie in 1..`hi`. */
  function OccurrencesUpTo(lossRounds: seq<nat>, hi: int): nat
    decreases hi
  {
    if hi < 1 then 0 else OccurrencesUpTo(lossRounds, hi - 1) + multiset(lossRounds)[hi]
  }

  /** The number of places a ranking of `n` lines has below rank `qualify`. */
  function Places(qualify: int, n: nat): (k: nat)
    ensures k <= n && k as int <= (if qualify > 0 then qualify else 0)
  {
    if qualify <= 0 then 0 else if qualify >= n then n else qualify
  }

  /** The sums over loss rounds grow by the last finisher's share of them. */
  lemma {:induction false} TalliedSumsStep(s: seq<Standing>, rounds: int, qualify: int, hi: int)
    requires s != []
    decreases hi
    ensures var last, rest := s[|s| - 1], s[..|s| - 1];
      var occ := if OneLoss(last, rounds) then OccurrencesUpTo(last.lossRounds, hi) else 0;
      && TalliedTotals(s, rounds, qualify, hi) == TalliedTotals(rest, rounds, qualify, hi) + occ
      && TalliedQualified(s, rounds, qualify, hi)
         == TalliedQualified(rest, rounds, qualify, hi) + (if |s| - 1 < qualify then occ else 0)
  {
    if hi >= 1 {
      TalliedSumsStep(s, rounds, qualify, hi - 1);
    }
  }

  lemma {:induction false} TalliedSumsEmpty(rounds: int, qualify: int, hi: int)
    decreases hi
    ensures TalliedTotals([], rounds, qualify, hi) == 0 && TalliedQualified([], rounds, qualify, hi) == 0
  {
    if hi >= 1 {
      TalliedSumsEmpty(rounds, qualify, hi - 1);
    }
  }

  /** A single loss round `r` is counted once by a sum reaching up to it. */
  lemma {:induction false} OccurrencesOfOne(r: nat, hi: int)
    requires r >= 1
    decreases hi
    ensures OccurrencesUpTo([r], hi) == if r as int <= hi then 1 else 0
  {
    if hi >= 1 {
      OccurrencesOfOne(r, hi - 1);
    }
  }

  /** Lines 64, 67-70: summed over the rounds, the totals count each one-loss
      finisher once, through its single loss round; the qualified counts count
      exactly the one-loss finishers ranked below `qualify`. */
  lemma {:induction false} TalliedSums(s: seq<Standing>, rounds: int, qualify: int)
    requires forall k :: 0 <= k < |s| ==> LossRoundsWithin(s[k], rounds)
    ensures TalliedTotals(s, rounds, qualify, rounds) == CountOneLoss(s, rounds)
    ensures TalliedQualified(s, rounds, qualify, rounds) == CountOneLoss(s[..Places(qualify, |s|)], rounds)
  {
    if s == [] {
      TalliedSumsEmpty(rounds, qualify, rounds);
    } else {
      var last, rest := s[|s| - 1], s[..|s| - 1];
      TalliedSums(rest, rounds, qualify);
      TalliedSumsStep(s, rounds, qualify, rounds);
      if OneLoss(last, rounds) {
        assert LossRoundsWithin(last, rounds);
        assert last.lossRounds == [last.lossRounds[0]];
        OccurrencesOfOne(last.lossRounds[0], rounds);
      }
      if |s| - 1 < qualify {
        assert s[..Places(qualify, |s|)] == s;
        assert rest[..Places(qualify, |rest|)] == rest;
      } else {
        assert s[..Places(qualify, |s|)] == rest[..Places(qualify, |rest|)];
      }
    }
  }

  /** Only rounds that were played can be keys of `results`. */
  lemma {:induction false} TalliedWithin(s: seq<Standing>, rounds: int, qualify: int, x: nat)
    requires forall k :: 0 <= k < |s| ==> LossRoundsWithin(s[k], rounds)
    requires Tallied(s, rounds, qualify, x).total > 0
    ensures 1 <= x <= rounds
  {
    var last, rest := s[|s| - 1], s[..|s| - 1];
    if Tallied(rest, rounds, qualify, x).total > 0 {
      TalliedWithin(rest, rounds, qualify, x);
    } else {
      assert x in multiset(last.lossRounds);
      assert LossRoundsWithin(last, rounds);
    }
  }

  lemma {:induction false} SumsAgree(results: map<nat, Tally>, s: seq<Standing>, rounds: int, qualify: int, hi: int)
    requires forall x :: Get(results, x) == Tallied(s, rounds, qualify, x)
    decreases hi
    ensures SumTotals(results, hi) == TalliedTotals(s, rounds, qualify, hi)
    ensures SumQualified(results, hi) == TalliedQualified(s, rounds, qualify, hi)
  {
    if hi >= 1 {
      SumsAgree(results, s, rounds, qualify, hi - 1);
    }
  }

  /** Lines 62-72, for every ranking of finishers that played `rounds` rounds:
      every key of `results` is a round played, no count of qualified exceeds
      its total, the totals add up to the one-loss count of line 64, and the
      qualified counts add up to the one-loss finishers ranked below `qualify`,
      so to at most `qualify`. */
  lemma TallySummary(results: map<nat, Tally>, ranking: seq<Standing>, rounds: int, qualify: int)
    requires forall k :: 0 <= k < |ranking| ==> LossRoundsWithin(ranking[k], rounds)
    requires forall x :: x in results <==> Tallied(ranking, rounds, qualify, x).total > 0
    requires forall x :: Get(results, x) == Tallied(ranking, rounds, qualify, x)
    ensures forall x :: x in results ==> 1 <= x <= rounds && results[x].qualified <= results[x].total
    ensures SumTotals(results, rounds) == CountOneLoss(ranking, rounds)
    ensures SumQualified(results, rounds) == CountOneLoss(ranking[..Places(qualify, |ranking|)], rounds)
    ensures SumQualified(results, rounds) <= Places(qualify, |ranking|)
  {
    forall x | x in results
      ensures 1 <= x <= rounds && results[x].qualified <= results[x].total
    {
      assert Get(results, x) == results[x];
      TalliedWithin(ranking, rounds, qualify, x);
    }
    SumsAgree(results, ranking, rounds, qualify, rounds);
    TalliedSums(ranking, rounds, qualify);
    CountsDisjoint(ranking[..Places(qualify, |ranking|)], rounds);
  }
}
