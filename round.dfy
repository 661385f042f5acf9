/** One round of the Swiss draw (swiss_simulation.py:8-50): retire players with
    two losses, split the rest into score groups, shuffle each group, set an odd
    member aside, and play consecutive pairs. */
module SwissRound {
  import opened SwissRecords

  /** Line 10: the players of `pool` with fewer than two losses, in pool order. */
  function Retire(recs: seq<Record>, pool: seq<nat>): (active: seq<nat>)
    requires AllIn(pool, |recs|)
    ensures AllIn(active, |recs|)
    ensures forall id :: id in active <==> id in pool && recs[id].losses < 2
    ensures Distinct(pool) ==> Distinct(active)
    ensures |active| <= |pool|
  {
    if pool == [] then []
    else
      var rest := Retire(recs, pool[1..]);
      if recs[pool[0]].losses < 2 then [pool[0]] + rest else rest
  }

  /** The players of `ids` with `w` wins and `l` losses, in list order. */
  function Select(recs: seq<Record>, ids: seq<nat>, w: nat, l: nat): (s: seq<nat>)
    requires AllIn(ids, |recs|)
    ensures AllIn(s, |recs|)
    ensures forall id :: id in s <==> id in ids && recs[id].wins == w && recs[id].losses == l
    ensures Distinct(ids) ==> Distinct(s)
  {
    if ids == [] then []
    else
      var rest := Select(recs, ids[1..], w, l);
      if recs[ids[0]].wins == w && recs[ids[0]].losses == l then [ids[0]] + rest else rest
  }

  /** Lines 12-16: the score group of `w` wins. The pool is sorted by (-wins,
      losses) with a stable sort and then grouped by wins, so within a group the
      players without a loss come first and each part keeps pool order; after
      the retirement filter nobody has two losses. */
  function Group(recs: seq<Record>, active: seq<nat>, w: nat): (g: seq<nat>)
    requires AllIn(active, |recs|)
    requires forall id :: id in active ==> recs[id].losses < 2
    ensures AllIn(g, |recs|)
    ensures forall id :: id in g <==> id in active && recs[id].wins == w
    ensures Distinct(active) ==> Distinct(g)
  {
    var undefeated := Select(recs, active, w, 0);
    var oneLoss := Select(recs, active, w, 1);
    assert forall id :: id in undefeated ==> id !in oneLoss;
    assert Distinct(active) ==> Distinct(undefeated + oneLoss) by {
      if Distinct(active) {
        DistinctConcat(undefeated, oneLoss);
      }
    }
    undefeated + oneLoss
  }

  /** Line 21: the score of the first group visited, the largest number of
      wins among `ids`, which some player has (0 when there are none). */
  function MaxWins(recs: seq<Record>, ids: seq<nat>): (m: nat)
    requires AllIn(ids, |recs|)
    ensures forall id :: id in ids ==> recs[id].wins <= m
    ensures ids == [] ==> m == 0
    ensures ids != [] ==> exists id :: id in ids && recs[id].wins == m
  {
    if ids == [] then 0
    else
      var rest := MaxWins(recs, ids[1..]);
      if recs[ids[0]].wins > rest then recs[ids[0]].wins else rest
  }

  /** The players of `ids` with more than `w` wins, in list order: those whose
      score groups are visited before the group of `w` wins. */
  function Above(recs: seq<Record>, ids: seq<nat>, w: int): (s: seq<nat>)
    requires AllIn(ids, |recs|)
    ensures forall id :: id in s ==> id in ids && recs[id].wins > w
  {
    if ids == [] then []
    else
      var rest := Above(recs, ids[1..], w);
      if recs[ids[0]].wins > w then [ids[0]] + rest else rest
  }

  /** How many players of `ids` have `w` wins: the size of that score group. */
  function ScoreCount(recs: seq<Record>, ids: seq<nat>, w: nat): nat
    requires AllIn(ids, |recs|)
  {
    if ids == [] then 0
    else ScoreCount(recs, ids[1..], w) + (if recs[ids[0]].wins == w then 1 else 0)
  }

  /** Each active player sits in exactly one score group: lowering the bar
      from `w` to `w - 1` wins adds exactly the group of `w` wins. */
  lemma {:induction false} AboveNext(recs: seq<Record>, ids: seq<nat>, w: nat)
    requires AllIn(ids, |recs|)
    requires forall id :: id in ids ==> recs[id].losses < 2
    ensures multiset(Above(recs, ids, w - 1))
         == multiset(Above(recs, ids, w)) + multiset(Group(recs, ids, w))
  {
    if ids != [] {
      var t := ids[1..];
      AboveNext(recs, t, w);
      assert ids == [ids[0]] + t;
    }
  }

  /** The group of `w` wins has `ScoreCount` members. */
  lemma {:induction false} GroupSize(recs: seq<Record>, ids: seq<nat>, w: nat)
    requires AllIn(ids, |recs|)
    requires forall id :: id in ids ==> recs[id].losses < 2
    ensures |Group(recs, ids, w)| == ScoreCount(recs, ids, w)
  {
    if ids != [] {
      GroupSize(recs, ids[1..], w);
    }
  }

  lemma {:induction false} AboveAll(recs: seq<Record>, ids: seq<nat>)
    requires AllIn(ids, |recs|)
    ensures Above(recs, ids, -1) == ids
  {
    if ids != [] {
      AboveAll(recs, ids[1..]);
    }
  }

  lemma {:induction false} NoneAbove(recs: seq<Record>, ids: seq<nat>, top: nat)
    requires AllIn(ids, |recs|)
    requires forall id :: id in ids ==> recs[id].wins <= top
    ensures Above(recs, ids, top) == []
    ensures forall v: nat :: v > top ==> ScoreCount(recs, ids, v) == 0
  {
    if ids != [] {
      NoneAbove(recs, ids[1..], top);
    }
  }

  /** Line 22: `random.shuffle` as CPython implements it: for each position `i`
      from the last down to 1, swap it with position `randbelow(i + 1)`. */
  method Shuffle(g: array<nat>, round: nat, w: nat, rng: Rng)
    modifies g
    ensures multiset(g[..]) == multiset(old(g[..]))
  {
    var i := g.Length - 1;
    while i > 0
      invariant -1 <= i < g.Length || (g.Length == 0 && i == -1)
      invariant multiset(g[..]) == multiset(old(g[..]))
    {
      var j := rng.randbelow(round, w, i) % (i + 1);
      g[i], g[j] := g[j], g[i];
      i := i - 1;
    }
  }

  /** Lines 36-46: one match. `winner == 0` means `p1` won. The winner gains a
      win, the loser a loss recorded with the round, each records the other as
      an opponent, and no other record changes. */
  method PlayMatch(arena: array<Record>, p1: nat, p2: nat, round: nat, winner: Bit)
    requires p1 < arena.Length && p2 < arena.Length && p1 != p2
    modifies arena
    ensures arena[..] == old(arena[..])
      [p1 := MatchResult(old(arena[..])[p1], p2, winner == 0, round)]
      [p2 := MatchResult(old(arena[..])[p2], p1, winner == 1, round)]
  {
    if winner == 0 {
      arena[p1] := Win(arena[p1]);
      arena[p2] := Lose(arena[p2], round);
    } else {
      arena[p2] := Win(arena[p2]);
      arena[p1] := Lose(arena[p1], round);
    }
    arena[p1] := arena[p1].(opponents := arena[p1].opponents + [p2]);
    arena[p2] := arena[p2].(opponents := arena[p2].opponents + [p1]);
  }

  /** A match between two players of the same score steps exactly those two,
      pairs them with each other, and gives exactly one of them the win. */
  lemma MatchPairs(before: seq<Record>, p1: nat, p2: nat, round: nat, winner: Bit)
    requires p1 < |before| && p2 < |before| && p1 != p2
    requires before[p1].wins == before[p2].wins
    ensures var after := before
      [p1 := MatchResult(before[p1], p2, winner == 0, round)]
      [p2 := MatchResult(before[p2], p1, winner == 1, round)];
      && SteppedExactly(before, after, [p1, p2], round)
      && PairedUp(before, after, [p1, p2])
  {
    var after := before
      [p1 := MatchResult(before[p1], p2, winner == 0, round)]
      [p2 := MatchResult(before[p2], p1, winner == 1, round)];
    var r1, r2 := after[p1], after[p2];
    assert r1.opponents == before[p1].opponents + [p2];
    assert r2.opponents == before[p2].opponents + [p1];
    assert r1.opponents[..|before[p1].opponents|] == before[p1].opponents;
    assert r2.opponents[..|before[p2].opponents|] == before[p2].opponents;
    assert Stepped(before[p1], r1, round, |before|) && Stepped(before[p2], r2, round, |before|);
    assert NewOpponent(before, after, p1) == p2 && NewOpponent(before, after, p2) == p1;
    assert Won(before[p1], r1) == (winner == 0) && Won(before[p2], r2) == (winner == 1);
  }

  /** Lines 34-48: play the consecutive pairs of an even-length list of players
      of the same score; each player meets exactly its partner. */
  method PlayPairs(arena: array<Record>, pairs: seq<nat>, w: nat, round: nat, rng: Rng)
    requires |pairs| % 2 == 0 && Distinct(pairs) && AllIn(pairs, arena.Length)
    requires forall id :: id in pairs ==> arena[id].wins == w
    modifies arena
    ensures SteppedExactly(old(arena[..]), arena[..], pairs, round)
    ensures PairedUp(old(arena[..]), arena[..], pairs)
    ensures forall id :: id in pairs ==> id < arena.Length && Faced(old(arena[..]), arena[..], id)
  {
    ghost var before := arena[..];
    var i := 0;
    while i < |pairs|
      invariant 0 <= i <= |pairs| && i % 2 == 0
      invariant SteppedExactly(before, arena[..], pairs[..i], round)
      invariant PairedUp(before, arena[..], pairs[..i])
      invariant forall id :: id in pairs[..i] ==> id < |before| && Faced(before, arena[..], id)
    {
      var p1, p2 := pairs[i], pairs[i + 1];
      var winner := rng.choice(round, w, i);
      ghost var mid := arena[..];
      NextPairUnplayed(pairs, i);
      PlayMatch(arena, p1, p2, round, winner);
      PairsExtend(before, mid, arena[..], pairs[..i], p1, p2, round, winner);
      assert pairs[..i + 2] == pairs[..i] + [p1, p2];
      i := i + 2;
    }
    assert pairs[..i] == pairs;
  }

  /** The pair at `i` of a list without repeats is two players not listed before `i`. */
  lemma NextPairUnplayed(pairs: seq<nat>, i: nat)
    requires Distinct(pairs) && i + 1 < |pairs|
    ensures pairs[i] != pairs[i + 1]
    ensures pairs[i] !in pairs[..i] && pairs[i + 1] !in pairs[..i]
  {
  }

  /** One more match of two unplayed players of the same score extends the
      pairs played so far. */
  lemma PairsExtend(before: seq<Record>, mid: seq<Record>, after: seq<Record>, done: seq<nat>,
                    p1: nat, p2: nat, round: nat, winner: Bit)
    requires p1 < |before| && p2 < |before| && p1 != p2 && p1 !in done && p2 !in done
    requires before[p1].wins == before[p2].wins
    requires SteppedExactly(before, mid, done, round) && PairedUp(before, mid, done)
    requires forall id :: id in done ==> id < |before| && Faced(before, mid, id)
    requires after == mid
      [p1 := MatchResult(mid[p1], p2, winner == 0, round)]
      [p2 := MatchResult(mid[p2], p1, winner == 1, round)]
    ensures SteppedExactly(before, after, done + [p1, p2], round)
    ensures PairedUp(before, after, done + [p1, p2])
    ensures forall id :: id in done + [p1, p2] ==> id < |before| && Faced(before, after, id)
  {
    assert mid[p1] == before[p1] && mid[p2] == before[p2];
    MatchPairs(mid, p1, p2, round, winner);
    SteppedCompose(before, mid, after, done, [p1, p2], round);
    PairedCompose(before, mid, after, done, [p1, p2], round);
    forall id | id in done + [p1, p2]
      ensures id < |before| && Faced(before, after, id)
    {
      if id in done {
        assert after[id] == mid[id];
      }
    }
  }

  /** What one score group does to the records (lines 22-48): `played` took
      one result each and were paired up within the group; the group splits into
      `played` and `deferred`; `extra` is the member popped from an odd group; it
      is deferred exactly when it had no loss, and otherwise it is the one
      player of `played` who met nobody, having been given the win. */
  ghost predicate GroupOutcome(before: seq<Record>, after: seq<Record>, group: seq<nat>,
                               played: seq<nat>, deferred: seq<nat>, extra: seq<nat>, round: nat)
  {
    && SteppedExactly(before, after, played, round)
    && PairedUp(before, after, played)
    && multiset(played) + multiset(deferred) == multiset(group)
    && Distinct(played) && Distinct(deferred)
    && (forall id :: id in played ==> id !in deferred)
    && |extra| == |group| % 2
    && (forall id :: id in extra ==> id in group)
    && AllIn(extra, |before|)
    && deferred == (if extra != [] && before[extra[0]].losses == 0 then extra else [])
    && (forall id :: id in played && id < |before| && !Faced(before, after, id) ==>
          extra == [id] && before[id].losses >= 1 && Won(before[id], after[id]))
  }

  /** An unopposed win steps exactly that player, who meets nobody. */
  lemma ByeSteps(before: seq<Record>, e: nat, round: nat)
    requires e < |before|
    ensures var after := before[e := Win(before[e])];
      && SteppedExactly(before, after, [e], round)
      && PairedUp(before, after, [e])
      && !Faced(before, after, e)
  {
  }

  /** A shuffled copy of a list of distinct players lists the same players. */
  lemma ShuffledMembers(group: seq<nat>, shuffled: seq<nat>)
    requires Distinct(group) && multiset(shuffled) == multiset(group)
    ensures Distinct(shuffled) && |shuffled| == |group|
    ensures forall id :: id in shuffled ==> id in group
  {
    DistinctByMultiset(shuffled, group);
    assert |multiset(shuffled)| == |multiset(group)|;
    assert forall id :: id in shuffled ==> id in multiset(group);
  }

  /** The popped member and the pairs split a shuffled group exactly. */
  lemma GroupSplits(group: seq<nat>, shuffled: seq<nat>, m: nat,
                    extra: seq<nat>, bye: seq<nat>, deferred: seq<nat>)
    requires multiset(shuffled) == multiset(group) && Distinct(shuffled)
    requires forall id :: id in shuffled ==> id in group
    requires m <= |shuffled| && |shuffled| - m == |group| % 2
    requires extra == shuffled[m..]
    requires (deferred == extra && bye == []) || (deferred == [] && bye == extra)
    ensures multiset(bye + shuffled[..m]) + multiset(deferred) == multiset(group)
    ensures Distinct(bye + shuffled[..m]) && Distinct(deferred)
    ensures forall id :: id in bye + shuffled[..m] ==> id !in deferred
    ensures forall id :: id in shuffled[..m] ==> id !in bye && id in group
    ensures |extra| == |group| % 2
    ensures forall id :: id in extra ==> id in group
    ensures Distinct(shuffled[..m])
  {
    var pairs := shuffled[..m];
    assert shuffled == pairs + extra;
    DistinctSplit(pairs, extra);
    assert forall id :: id in pairs ==> id in shuffled;
    assert forall id :: id in extra ==> id in shuffled;
    if bye == [] {
      assert bye + pairs == pairs;
    } else {
      DistinctConcat(extra, pairs);
    }
  }

  /** The pairs left after the pop are distinct members of the group whose
      records, after the bye if there was one, still show `w` wins. */
  lemma PairsReady(before: seq<Record>, mid: seq<Record>, group: seq<nat>, w: nat,
                   shuffled: seq<nat>, m: nat, extra: seq<nat>, bye: seq<nat>, deferred: seq<nat>)
    requires AllIn(group, |before|)
    requires forall id :: id in group ==> before[id].wins == w
    requires multiset(shuffled) == multiset(group) && Distinct(shuffled)
    requires forall id :: id in shuffled ==> id in group
    requires m <= |shuffled| && |shuffled| - m == |group| % 2
    requires extra == shuffled[m..]
    requires (deferred == extra && bye == []) || (deferred == [] && bye == extra)
    requires bye == [] ==> mid == before
    requires bye != [] ==> bye[0] < |before| && mid == before[bye[0] := Win(before[bye[0]])]
    ensures Distinct(shuffled[..m]) && AllIn(shuffled[..m], |mid|)
    ensures forall id :: id in shuffled[..m] ==> mid[id].wins == w
  {
    GroupSplits(group, shuffled, m, extra, bye, deferred);
    var pairs := shuffled[..m];
    forall i | 0 <= i < |pairs| ensures pairs[i] < |mid| {
      assert pairs[i] in group;
    }
  }

  lemma GroupOutcomeHolds(before: seq<Record>, mid: seq<Record>, after: seq<Record>,
                          group: seq<nat>, shuffled: seq<nat>, m: nat,
                          extra: seq<nat>, bye: seq<nat>, deferred: seq<nat>, round: nat)
    requires Distinct(group) && AllIn(group, |before|)
    requires multiset(shuffled) == multiset(group)
    requires m <= |shuffled| && |shuffled| - m == |shuffled| % 2
    requires extra == shuffled[m..]
    requires AllIn(extra, |before|) && AllIn(bye, |before|)
    requires extra != [] && before[extra[0]].losses == 0 ==> deferred == extra && bye == []
    requires !(extra != [] && before[extra[0]].losses == 0) ==> deferred == [] && bye == extra
    requires bye == [] ==> mid == before
    requires bye != [] ==> mid == before[bye[0] := Win(before[bye[0]])]
    requires SteppedExactly(mid, after, shuffled[..m], round)
    requires PairedUp(mid, after, shuffled[..m])
    requires forall id :: id in shuffled[..m] ==> id < |mid| && Faced(mid, after, id)
    ensures GroupOutcome(before, after, group, bye + shuffled[..m], deferred, extra, round)
  {
    var pairs := shuffled[..m];
    ShuffledMembers(group, shuffled);
    GroupSplits(group, shuffled, m, extra, bye, deferred);
    if bye != [] {
      ByeSteps(before, bye[0], round);
    }
    assert SteppedExactly(before, mid, bye, round) && PairedUp(before, mid, bye);
    assert forall id :: id in pairs ==> mid[id] == before[id];
    SteppedCompose(before, mid, after, bye, pairs, round);
    PairedCompose(before, mid, after, bye, pairs, round);
    var played := bye + pairs;
    forall id | id in played && id < |before| && !Faced(before, after, id)
      ensures extra == [id] && before[id].losses >= 1 && Won(before[id], after[id])
    {
      if id in pairs {
        assert false;
      } else {
        assert id in bye && after[id] == mid[id];
      }
    }
  }

  /** Lines 22-48 for one score group `group` of `w` wins: shuffle, pop the
      last member when the size is odd (deferred when it has no loss, otherwise
      given an unopposed win), and play consecutive pairs. `played` lists what
      the group appends to the next pool, `deferred` what it appends to the
      list of deferred players, and `extra` the popped member. */
  method PlayGroup(arena: array<Record>, group: seq<nat>, w: nat, round: nat, rng: Rng)
    returns (played: seq<nat>, deferred: seq<nat>, ghost extra: seq<nat>)
    requires Distinct(group) && AllIn(group, arena.Length)
    requires forall id :: id in group ==> arena[id].wins == w && arena[id].losses < 2
    modifies arena
    ensures GroupOutcome(old(arena[..]), arena[..], group, played, deferred, extra, round)
  {
    ghost var before := arena[..];
    var g := new nat[|group|](i requires 0 <= i < |group| => group[i]);
    assert g[..] == group;
    Shuffle(g, round, w, rng);
    ghost var shuffled := g[..];
    ShuffledMembers(group, shuffled);
    var m := g.Length;
    played, deferred, extra := [], [], [];
    if m % 2 == 1 {
      m := m - 1;
      var e := g[m];
      assert e in shuffled;
      extra := [e];
      if arena[e].losses == 0 {
        deferred := [e];
      } else {
        arena[e] := Win(arena[e]);
        assert arena[..] == before[e := Win(before[e])];
        played := [e];
      }
    }
    ghost var mid := arena[..];
    assert extra == shuffled[m..];
    PairsReady(before, mid, group, w, shuffled, m, extra, played, deferred);
    var pairs := g[..m];
    PlayPairs(arena, pairs, w, round, rng);
    GroupOutcomeHolds(before, mid, arena[..], group, shuffled, m, extra, played, deferred, round);
    played := played + pairs;
  }

  /** The records of `newPool` took one result each, paired among themselves. */
  ghost predicate RoundPlayed(start: seq<Record>, now: seq<Record>, newPool: seq<nat>, round: nat) {
    SteppedExactly(start, now, newPool, round) && PairedUp(start, now, newPool)
  }

  /** The score groups above `w` wins split exactly into `newPool` and `deferred`. */
  ghost predicate RoundSplit(start: seq<Record>, active: seq<nat>, w: int,
                             newPool: seq<nat>, deferred: seq<nat>)
    requires AllIn(active, |start|)
  {
    multiset(newPool) + multiset(deferred) == multiset(Above(start, active, w))
  }

  /** `extras` maps exactly the score groups of odd size above `w` wins to a
      member of that group (the one popped, line 24). */
  ghost predicate ExtrasKeyed(start: seq<Record>, active: seq<nat>, w: int, extras: map<nat, nat>)
    requires AllIn(active, |start|)
  {
    && (forall v: nat :: v in extras <==> w < v && ScoreCount(start, active, v) % 2 == 1)
    && (forall v :: v in extras ==>
          extras[v] in active && extras[v] < |start| && start[extras[v]].wins == v)
  }

  /** Lines 25-27: a popped member is deferred exactly when it had no loss, and
      every deferred player is a popped member. */
  ghost predicate ExtrasSetAside(start: seq<Record>, deferred: seq<nat>, extras: map<nat, nat>) {
    && (forall v :: v in extras ==>
          extras[v] < |start| && (extras[v] in deferred <==> start[extras[v]].losses == 0))
    && (forall id :: id in deferred ==>
          id < |start| && start[id].wins in extras && extras[start[id].wins] == id)
  }

  /** Lines 28-32: a player of `newPool` who met nobody is the popped member of
      its group, had a loss, and was given the win. */
  ghost predicate ExtrasUnopposed(start: seq<Record>, now: seq<Record>, newPool: seq<nat>,
                                  extras: map<nat, nat>)
  {
    forall id :: id in newPool && id < |start| && id < |now| && !Faced(start, now, id) ==>
      && start[id].wins in extras && extras[start[id].wins] == id
      && start[id].losses >= 1 && Won(start[id], now[id])
  }

  ghost predicate RoundExtras(start: seq<Record>, now: seq<Record>, active: seq<nat>, w: int,
                              newPool: seq<nat>, deferred: seq<nat>, extras: map<nat, nat>)
    requires AllIn(active, |start|)
  {
    && ExtrasKeyed(start, active, w, extras)
    && ExtrasSetAside(start, deferred, extras)
    && ExtrasUnopposed(start, now, newPool, extras)
  }

  /** The state of a round after the score groups above `w` wins were played. */
  ghost predicate RoundSoFar(start: seq<Record>, now: seq<Record>, active: seq<nat>, w: int,
                             newPool: seq<nat>, deferred: seq<nat>, extras: map<nat, nat>, round: nat)
    requires AllIn(active, |start|)
  {
    && RoundPlayed(start, now, newPool, round)
    && RoundSplit(start, active, w, newPool, deferred)
    && RoundExtras(start, now, active, w, newPool, deferred, extras)
  }

  /** Nothing of the group of `w` wins has been played or set aside yet. */
  lemma RoundSoFarUntouched(start: seq<Record>, now: seq<Record>, active: seq<nat>, w: nat,
                            newPool: seq<nat>, deferred: seq<nat>, round: nat)
    requires AllIn(active, |start|)
    requires forall id :: id in active ==> start[id].losses < 2
    requires RoundPlayed(start, now, newPool, round)
    requires RoundSplit(start, active, w, newPool, deferred)
    ensures forall id :: id in Group(start, active, w) ==>
              id !in newPool && id !in deferred && now[id] == start[id]
  {
    forall id | id in Group(start, active, w)
      ensures id !in newPool && id !in deferred
    {
      assert id !in Above(start, active, w);
      assert id !in multiset(Above(start, active, w));
    }
  }

  lemma RoundSplitNext(start: seq<Record>, active: seq<nat>, w: nat,
                       newPool: seq<nat>, deferred: seq<nat>, played: seq<nat>, d: seq<nat>)
    requires AllIn(active, |start|)
    requires forall id :: id in active ==> start[id].losses < 2
    requires RoundSplit(start, active, w, newPool, deferred)
    requires multiset(played) + multiset(d) == multiset(Group(start, active, w))
    ensures RoundSplit(start, active, w - 1, newPool + played, deferred + d)
  {
    AboveNext(start, active, w);
  }

  /** The popped member of the group of `w` wins joins `extras` as the group
      of `w` wins when that group has odd size. */
  lemma ExtrasKeyedNext(start: seq<Record>, active: seq<nat>, w: nat,
                        extras: map<nat, nat>, extras': map<nat, nat>, extra: seq<nat>)
    requires AllIn(active, |start|)
    requires forall id :: id in active ==> start[id].losses < 2
    requires ExtrasKeyed(start, active, w, extras)
    requires |extra| == |Group(start, active, w)| % 2
    requires forall id :: id in extra ==> id in Group(start, active, w)
    requires extras' == if extra != [] then extras[w := extra[0]] else extras
    ensures ExtrasKeyed(start, active, w - 1, extras')
  {
    GroupSize(start, active, w);
  }

  /** The facts about the group of `w` wins that the two lemmas below use. */
  ghost predicate FreshGroup(start: seq<Record>, mid: seq<Record>, group: seq<nat>, w: nat,
                             newPool: seq<nat>, deferred: seq<nat>)
  {
    forall id :: id in group ==>
      && id < |start| && id < |mid| && start[id].wins == w && mid[id] == start[id]
      && id !in newPool && id !in deferred
  }

  /** The popped member of the group is deferred exactly when it had no loss,
      and every deferred player is the popped member of its group. */
  lemma ExtrasSetAsideNext(start: seq<Record>, mid: seq<Record>, group: seq<nat>, w: nat,
                           newPool: seq<nat>, deferred: seq<nat>,
                           extras: map<nat, nat>, extras': map<nat, nat>, d: seq<nat>, extra: seq<nat>)
    requires FreshGroup(start, mid, group, w, newPool, deferred)
    requires forall v :: v in extras ==> v > w && extras[v] < |start| && start[extras[v]].wins == v
    requires ExtrasSetAside(start, deferred, extras)
    requires |extra| <= 1 && AllIn(extra, |mid|) && forall id :: id in extra ==> id in group
    requires d == (if extra != [] && mid[extra[0]].losses == 0 then extra else [])
    requires extras' == if extra != [] then extras[w := extra[0]] else extras
    ensures ExtrasSetAside(start, deferred + d, extras')
  {
    forall v | v in extras'
      ensures extras'[v] < |start| && (extras'[v] in deferred + d <==> start[extras'[v]].losses == 0)
    {
      if v == w && extra != [] {
        assert extra[0] in group;
      } else {
        assert extras[v] !in d;
      }
    }
    forall id | id in deferred + d
      ensures id < |start| && start[id].wins in extras' && extras'[start[id].wins] == id
    {
      if id in d {
        assert extra == [id] && id in group;
      } else {
        assert start[id].wins > w;
      }
    }
  }

  /** A player of the next pool who met nobody is the popped member of its
      group, had a loss, and was given the win. */
  lemma ExtrasUnopposedNext(start: seq<Record>, mid: seq<Record>, now: seq<Record>, group: seq<nat>,
                            w: nat, newPool: seq<nat>, deferred: seq<nat>,
                            extras: map<nat, nat>, extras': map<nat, nat>, played: seq<nat>, extra: seq<nat>)
    requires |mid| == |start| && |now| == |start|
    requires FreshGroup(start, mid, group, w, newPool, deferred)
    requires forall v :: v in extras ==> v > w
    requires ExtrasUnopposed(start, mid, newPool, extras)
    requires forall id :: id in newPool && id < |now| ==> now[id] == mid[id]
    requires forall id :: id in played ==> id in group
    requires forall id :: id in played && id < |mid| && !Faced(mid, now, id) ==>
               extra == [id] && mid[id].losses >= 1 && Won(mid[id], now[id])
    requires extras' == if extra != [] then extras[w := extra[0]] else extras
    ensures ExtrasUnopposed(start, now, newPool + played, extras')
  {
    forall id | id in newPool + played && id < |start| && id < |now| && !Faced(start, now, id)
      ensures && start[id].wins in extras' && extras'[start[id].wins] == id
              && start[id].losses >= 1 && Won(start[id], now[id])
    {
      if id in newPool {
        assert now[id] == mid[id];
      } else {
        assert id in group;
      }
    }
  }

  lemma RoundExtrasNext(start: seq<Record>, mid: seq<Record>, now: seq<Record>, active: seq<nat>, w: nat,
                        newPool: seq<nat>, deferred: seq<nat>, extras: map<nat, nat>, round: nat,
                        played: seq<nat>, d: seq<nat>, extra: seq<nat>)
    requires AllIn(active, |start|)
    requires forall id :: id in active ==> start[id].losses < 2
    requires |mid| == |start| && |now| == |start|
    requires RoundExtras(start, mid, active, w, newPool, deferred, extras)
    requires forall id :: id in Group(start, active, w) ==>
               id !in newPool && id !in deferred && mid[id] == start[id]
    requires forall id :: id in newPool && id < |now| ==> now[id] == mid[id]
    requires GroupOutcome(mid, now, Group(start, active, w), played, d, extra, round)
    ensures RoundExtras(start, now, active, w - 1, newPool + played, deferred + d,
                        if extra != [] then extras[w := extra[0]] else extras)
  {
    var group := Group(start, active, w);
    var extras' := if extra != [] then extras[w := extra[0]] else extras;
    assert FreshGroup(start, mid, group, w, newPool, deferred);
    assert forall v :: v in extras ==> v > w && extras[v] < |start| && start[extras[v]].wins == v;
    ExtrasKeyedNext(start, active, w, extras, extras', extra);
    ExtrasSetAsideNext(start, mid, group, w, newPool, deferred, extras, extras', d, extra);
    assert forall id :: id in played ==> id in multiset(group);
    ExtrasUnopposedNext(start, mid, now, group, w, newPool, deferred, extras, extras', played, extra);
  }

  lemma RoundSoFarNext(start: seq<Record>, mid: seq<Record>, now: seq<Record>, active: seq<nat>, w: nat,
                       newPool: seq<nat>, deferred: seq<nat>, extras: map<nat, nat>, round: nat,
                       played: seq<nat>, d: seq<nat>, extra: seq<nat>)
    requires AllIn(active, |start|)
    requires forall id :: id in active ==> start[id].losses < 2
    requires RoundSoFar(start, mid, active, w, newPool, deferred, extras, round)
    requires GroupOutcome(mid, now, Group(start, active, w), played, d, extra, round)
    ensures RoundSoFar(start, now, active, w - 1, newPool + played, deferred + d,
                       if extra != [] then extras[w := extra[0]] else extras, round)
  {
    var group := Group(start, active, w);
    RoundSoFarUntouched(start, mid, active, w, newPool, deferred, round);
    assert forall id :: id in played ==> id in multiset(group);
    SteppedCompose(start, mid, now, newPool, played, round);
    PairedCompose(start, mid, now, newPool, played, round);
    RoundSplitNext(start, active, w, newPool, deferred, played, d);
    RoundExtrasNext(start, mid, now, active, w, newPool, deferred, extras, round, played, d, extra);
  }

  /** What a round does (lines 9-50), from the records and pool at its start:
      the players of the next pool took exactly one result each and were paired
      within their score group; the active players (two losses retire, line 10)
      split exactly into the next pool and the deferred undefeated extras, which
      leave the tournament; `extras` maps exactly the score groups of odd size
      to their popped member, deferred exactly when it had no loss and otherwise
      the one unopposed winner of the group. */
  ghost predicate RoundOutcome(start: seq<Record>, now: seq<Record>, pool: seq<nat>,
                               newPool: seq<nat>, deferred: seq<nat>, extras: map<nat, nat>, round: nat)
    requires AllIn(pool, |start|)
  {
    var active := Retire(start, pool);
    && SteppedExactly(start, now, newPool, round)
    && PairedUp(start, now, newPool)
    && multiset(newPool) + multiset(deferred) == multiset(active)
    && Distinct(newPool) && Distinct(deferred)
    && (forall id :: id in newPool ==> id !in deferred)
    && ExtrasKeyed(start, active, -1, extras)
    && ExtrasSetAside(start, deferred, extras)
    && ExtrasUnopposed(start, now, newPool, extras)
  }

  lemma RoundOutcomeHolds(start: seq<Record>, now: seq<Record>, pool: seq<nat>,
                          newPool: seq<nat>, deferred: seq<nat>, extras: map<nat, nat>, round: nat)
    requires AllIn(pool, |start|) && Distinct(pool)
    requires RoundSoFar(start, now, Retire(start, pool), -1, newPool, deferred, extras, round)
    ensures RoundOutcome(start, now, pool, newPool, deferred, extras, round)
  {
    var active := Retire(start, pool);
    AboveAll(start, active);
    DistinctByMultiset(newPool + deferred, active);
    DistinctSplit(newPool, deferred);
  }

  /** Lines 20-48 for the score group of `w` wins, whose members are taken from
      the records as they stood when the round began (line 12): play it and
      extend the round's results. */
  method PlayScoreGroup(arena: array<Record>, start: seq<Record>, active: seq<nat>, w: nat,
                        newPool: seq<nat>, deferred: seq<nat>, ghost extras: map<nat, nat>,
                        round: nat, rng: Rng)
    returns (newPool': seq<nat>, deferred': seq<nat>, ghost extras': map<nat, nat>)
    requires arena.Length == |start| && AllIn(active, |start|) && Distinct(active)
    requires forall id :: id in active ==> start[id].losses < 2
    requires RoundSoFar(start, arena[..], active, w, newPool, deferred, extras, round)
    modifies arena
    ensures RoundSoFar(start, arena[..], active, w - 1, newPool', deferred', extras', round)
  {
    var group := Group(start, active, w);
    ghost var mid := arena[..];
    RoundSoFarUntouched(start, mid, active, w, newPool, deferred, round);
    var played, d, extra := PlayGroup(arena, group, w, round, rng);
    RoundSoFarNext(start, mid, arena[..], active, w, newPool, deferred, extras, round, played, d, extra);
    newPool', deferred' := newPool + played, deferred + d;
    extras' := if extra != [] then extras[w := extra[0]] else extras;
  }

  /** Before any group is played, nothing is split and no group is above the top score. */
  lemma RoundStarts(start: seq<Record>, active: seq<nat>, top: nat, round: nat)
    requires AllIn(active, |start|)
    requires forall id :: id in active ==> start[id].wins <= top
    ensures RoundSoFar(start, start, active, top, [], [], map[], round)
  {
    NoneAbove(start, active, top);
  }

  /** Lines 20-48: the score groups from `top` wins down to none, highest
      first. A score nobody has gives an empty group, which plays nothing. */
  method PlayGroups(arena: array<Record>, start: seq<Record>, active: seq<nat>, top: nat,
                    round: nat, rng: Rng)
    returns (newPool: seq<nat>, deferred: seq<nat>, ghost extras: map<nat, nat>)
    requires arena.Length == |start| && AllIn(active, |start|) && Distinct(active)
    requires forall id :: id in active ==> start[id].losses < 2
    requires RoundSoFar(start, arena[..], active, top, [], [], map[], round)
    modifies arena
    ensures RoundSoFar(start, arena[..], active, -1, newPool, deferred, extras, round)
  {
    newPool, deferred, extras := [], [], map[];
    var w: int := top;
    while w >= 0
      invariant -1 <= w <= top && arena.Length == |start|
      invariant RoundSoFar(start, arena[..], active, w, newPool, deferred, extras, round)
      decreases w + 1
    {
      newPool, deferred, extras :=
        PlayScoreGroup(arena, start, active, w, newPool, deferred, extras, round, rng);
      w := w - 1;
    }
  }

  /** Lines 9-50: one round. `newPool` is the next pool (`new_records`),
      `deferred` the undefeated odd members set aside (`one_loss_records`, which
      nothing reads: they leave the tournament), and the ghost map `extras`
      gives, per score group of odd size, the member that was popped. */
  method PlayRound(arena: array<Record>, pool: seq<nat>, round: nat, rng: Rng)
    returns (newPool: seq<nat>, deferred: seq<nat>, ghost extras: map<nat, nat>)
    requires Distinct(pool) && AllIn(pool, arena.Length)
    modifies arena
    ensures RoundOutcome(old(arena[..]), arena[..], pool, newPool, deferred, extras, round)
  {
    var start := arena[..];
    var active := Retire(start, pool);
    var top := MaxWins(start, active);
    RoundStarts(start, active, top, round);
    newPool, deferred, extras := PlayGroups(arena, start, active, top, round, rng);
    RoundOutcomeHolds(start, arena[..], pool, newPool, deferred, extras, round);
  }

  /** Lines 9-50: `now` and `newPool` are what some round `round` makes of
      `start` and `pool`, with some list of deferred players and some popped
      member per odd score group. */
  ghost predicate RoundStep(start: seq<Record>, now: seq<Record>, pool: seq<nat>, newPool: seq<nat>, round: nat) {
    && AllIn(pool, |start|)
    && exists deferred: seq<nat>, extras: map<nat, nat> ::
         RoundOutcome(start, now, pool, newPool, deferred, extras, round)
  }

  /** A round never takes a result away: wins, losses, loss rounds and
      opponents only grow, and the arena keeps its players. */
  lemma RoundStepGrows(start: seq<Record>, now: seq<Record>, pool: seq<nat>, newPool: seq<nat>, round: nat)
    requires RoundStep(start, now, pool, newPool, round)
    ensures |now| == |start|
    ensures forall id :: 0 <= id < |start| ==>
              && start[id].wins <= now[id].wins && start[id].losses <= now[id].losses
              && now[id].wins + now[id].losses <= start[id].wins + start[id].losses + 1
              && start[id].lossRounds <= now[id].lossRounds
              && start[id].opponents <= now[id].opponents
  {
    var deferred, extras :| RoundOutcome(start, now, pool, newPool, deferred, extras, round);
    forall id | 0 <= id < |start|
      ensures && start[id].wins <= now[id].wins && start[id].losses <= now[id].losses
              && now[id].wins + now[id].losses <= start[id].wins + start[id].losses + 1
              && start[id].lossRounds <= now[id].lossRounds
              && start[id].opponents <= now[id].opponents
    {
      if id in newPool {
        assert Stepped(start[id], now[id], round, |start|);
      }
    }
  }

  /** Lines 8-50, between two rounds: every record stays well formed (so no one
      passes two losses, and loss rounds stay one per loss and increasing) and
      every member of the next pool has exactly one more result. */
  lemma RoundKeepsInvariant(start: seq<Record>, now: seq<Record>, pool: seq<nat>, newPool: seq<nat>,
                            deferred: seq<nat>, extras: map<nat, nat>, round: nat)
    requires round >= 1 && PoolInvariant(start, pool, round - 1)
    requires RoundOutcome(start, now, pool, newPool, deferred, extras, round)
    ensures PoolInvariant(now, newPool, round)
    ensures |newPool| <= |pool|
  {
    var active := Retire(start, pool);
    assert multiset(newPool) + multiset(deferred) == multiset(active);
    NextPoolActive(newPool, deferred, active);
    NextPoolKeepsInvariant(start, now, pool, newPool, round);
  }

  /** The next pool is drawn from the active players. */
  lemma NextPoolActive(newPool: seq<nat>, deferred: seq<nat>, active: seq<nat>)
    requires multiset(newPool) + multiset(deferred) == multiset(active)
    ensures |newPool| <= |active|
    ensures forall id :: id in newPool ==> id in active
  {
    assert |multiset(newPool)| <= |multiset(active)|;
    assert forall id :: id in newPool ==> id in multiset(active);
  }

  lemma NextPoolKeepsInvariant(start: seq<Record>, now: seq<Record>, pool: seq<nat>,
                               newPool: seq<nat>, round: nat)
    requires round >= 1 && PoolInvariant(start, pool, round - 1)
    requires SteppedExactly(start, now, newPool, round)
    requires Distinct(newPool)
    requires forall id :: id in newPool ==> id in Retire(start, pool)
    ensures PoolInvariant(now, newPool, round)
  {
    RecordsStayWellFormed(start, now, pool, newPool, round);
    forall i | 0 <= i < |newPool| ensures newPool[i] < |now| {
      assert newPool[i] in Retire(start, pool);
    }
    forall id | id in newPool
      ensures id < |now| && now[id].wins + now[id].losses == round
    {
      StepKeepsWellFormed(start[id], now[id], round - 1, |start|);
    }
  }

  lemma RecordsStayWellFormed(start: seq<Record>, now: seq<Record>, pool: seq<nat>,
                              newPool: seq<nat>, round: nat)
    requires round >= 1 && PoolInvariant(start, pool, round - 1)
    requires SteppedExactly(start, now, newPool, round)
    requires forall id :: id in newPool ==> id in Retire(start, pool)
    ensures forall id :: 0 <= id < |now| ==> WellFormed(now[id], round, |now|)
  {
    forall id | 0 <= id < |now|
      ensures WellFormed(now[id], round, |now|)
    {
      if id in newPool {
        StepKeepsWellFormed(start[id], now[id], round - 1, |start|);
      } else {
        WellFormedLater(start[id], round - 1, |start|);
      }
    }
  }

  /** The players of `ids` without a loss. */
  ghost function UndefeatedSet(recs: seq<Record>, ids: seq<nat>): set<nat> {
    set id | id in ids && id < |recs| && recs[id].losses == 0
  }

  /** Lines 25-48: a player of the next pool still without a loss beat a
      partner of the same score who had no loss either and now has one (an
      undefeated popped member is set aside, line 26, and an unopposed win
      goes only to a player with a loss, line 28). */
  lemma UndefeatedBeatOne(start: seq<Record>, now: seq<Record>, pool: seq<nat>, newPool: seq<nat>,
                          deferred: seq<nat>, extras: map<nat, nat>, round: nat, id: nat)
    requires round >= 1 && PoolInvariant(start, pool, round - 1)
    requires RoundOutcome(start, now, pool, newPool, deferred, extras, round)
    requires id in UndefeatedSet(now, newPool)
    ensures id in UndefeatedSet(start, pool)
    ensures id < |start| && Faced(start, now, id)
    ensures var o := NewOpponent(start, now, id);
              && o in UndefeatedSet(start, pool) && o !in UndefeatedSet(now, newPool)
              && o < |start| && Faced(start, now, o) && NewOpponent(start, now, o) == id
  {
    var active := Retire(start, pool);
    NextPoolActive(newPool, deferred, active);
    assert id in active;
    assert Stepped(start[id], now[id], round, |start|);
    assert Won(start[id], now[id]);
    var o := NewOpponent(start, now, id);
    assert o in newPool && o in active;
    assert Stepped(start[o], now[o], round, |start|);
  }

  /** Lines 25-48: a round at most halves the players without a loss, since
      each one left beat another who no longer is one. */
  lemma RoundHalvesUndefeated(start: seq<Record>, now: seq<Record>, pool: seq<nat>, newPool: seq<nat>,
                              deferred: seq<nat>, extras: map<nat, nat>, round: nat)
    requires round >= 1 && PoolInvariant(start, pool, round - 1)
    requires RoundOutcome(start, now, pool, newPool, deferred, extras, round)
    ensures 2 * |UndefeatedSet(now, newPool)| <= |UndefeatedSet(start, pool)|
  {
    var after := UndefeatedSet(now, newPool);
    var before := UndefeatedSet(start, pool);
    forall id | id in after
      ensures && id in before && id < |start| && id < |now| && Faced(start, now, id)
              && var o := NewOpponent(start, now, id);
                 && o in before - after && o < |start| && o < |now| && Faced(start, now, o)
                 && NewOpponent(start, now, o) == id
    {
      UndefeatedBeatOne(start, now, pool, newPool, deferred, extras, round, id);
    }
    MatchedAtMostHalf(start, now, after, before);
  }

  /** Players of `after`, drawn from `before`, whose new opponents are distinct
      players of `before` outside `after` are at most half of `before`. */
  lemma MatchedAtMostHalf(start: seq<Record>, now: seq<Record>, after: set<nat>, before: set<nat>)
    requires forall id :: id in after ==>
               && id in before && id < |start| && id < |now| && Faced(start, now, id)
               && var o := NewOpponent(start, now, id);
                  && o in before - after && o < |start| && o < |now| && Faced(start, now, o)
                  && NewOpponent(start, now, o) == id
    ensures 2 * |after| <= |before|
  {
    var beaten := map id | id in after :: NewOpponent(start, now, id);
    InjectionCard(after, before - after, beaten);
    assert before == after + (before - after);
  }
}
