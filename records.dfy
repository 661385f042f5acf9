/** Player records of one Swiss-draw tournament and the bookkeeping invariants
    that hold between rounds. A record is identified by its index in the arena
    (the player id); opponents are stored as ids, so reading an opponent's
    record always sees its latest state, as the shared dictionaries do. */
module SwissRecords {

  /** One entrant: `wins`, `losses`, the rounds in which each loss happened, and
      the ids of everybody faced so far. */
  datatype Record = Record(wins: nat, losses: nat, lossRounds: seq<nat>, opponents: seq<nat>)

  /** The record every player starts with. */
  const Fresh := Record(0, 0, [], [])

  /** The two values `random.choice([0, 1])` can return. */
  type Bit = b: int | 0 <= b < 2

  /** The random source, keyed by (round, wins of the score group, index).
      `randbelow(round, wins, i)` is the raw draw the shuffle of that group uses
      at position `i` (taken modulo `i + 1`), `choice(round, wins, i)` the winner
      of the match whose first player stands at position `i` of the group. */
  datatype Rng = Rng(randbelow: (nat, nat, nat) -> nat, choice: (nat, nat, nat) -> Bit)

  predicate AllIn(ids: seq<nat>, n: nat) {
    forall i :: 0 <= i < |ids| ==> ids[i] < n
  }

  predicate Distinct(ids: seq<nat>) {
    forall i, j :: 0 <= i < j < |ids| ==> ids[i] != ids[j]
  }

  predicate Increasing(s: seq<nat>) {
    forall i, j :: 0 <= i < j < |s| ==> s[i] < s[j]
  }

  /** The number of rounds `range(1, rounds + 1)` plays: none for a
      non-positive `rounds`. */
  function Played(rounds: int): nat {
    if rounds > 0 then rounds else 0
  }

  /** One loss round per loss, each one of the rounds 1..`elapsed`. */
  predicate LossesLogged(losses: nat, lossRounds: seq<nat>, elapsed: int) {
    && |lossRounds| == losses
    && forall i :: 0 <= i < |lossRounds| ==> 1 <= lossRounds[i] <= elapsed
  }

  /** What holds of every record (in play, retired or dropped) after `elapsed`
      rounds of an arena of `n` players: at most two losses, one loss round per
      loss, loss rounds strictly increasing and among the rounds played, never
      more results than rounds, and opponents that are players. */
  ghost predicate WellFormed(r: Record, elapsed: nat, n: nat) {
    && r.losses <= 2
    && LossesLogged(r.losses, r.lossRounds, elapsed)
    && Increasing(r.lossRounds)
    && r.wins + r.losses <= elapsed
    && AllIn(r.opponents, n)
  }

  /** The state between rounds: every record is well formed, and the pool for
      the next round lists distinct players, each with one result per round. */
  ghost predicate PoolInvariant(recs: seq<Record>, pool: seq<nat>, elapsed: nat) {
    && (forall id :: 0 <= id < |recs| ==> WellFormed(recs[id], elapsed, |recs|))
    && Distinct(pool)
    && AllIn(pool, |recs|)
    && (forall id :: id in pool ==> id < |recs| && recs[id].wins + recs[id].losses == elapsed)
  }

  /** True when the round's result raised `after.wins` rather than its losses. */
  predicate Won(before: Record, after: Record) {
    after.wins > before.wins
  }

  function Win(r: Record): Record {
    r.(wins := r.wins + 1)
  }

  function Lose(r: Record, round: nat): Record {
    r.(losses := r.losses + 1, lossRounds := r.lossRounds + [round])
  }

  /** The record of a player after a match against `opponent` in `round`. */
  function MatchResult(r: Record, opponent: nat, won: bool, round: nat): Record {
    var scored := if won then Win(r) else Lose(r, round);
    scored.(opponents := r.opponents + [opponent])
  }

  /** `after` is `before` with exactly one result of `round` added: a win, or a
      loss recorded with its round; and at most one opponent, a player id. */
  ghost predicate Stepped(before: Record, after: Record, round: nat, n: nat) {
    && ((after.wins == before.wins + 1 && after.losses == before.losses
         && after.lossRounds == before.lossRounds)
        || (after.wins == before.wins && after.losses == before.losses + 1
            && after.lossRounds == before.lossRounds + [round]))
    && (after.opponents == before.opponents
        || (|after.opponents| == |before.opponents| + 1
            && after.opponents[..|before.opponents|] == before.opponents
            && after.opponents[|before.opponents|] < n))
  }

  /** Player `id` met an opponent between the two states. */
  predicate Faced(before: seq<Record>, after: seq<Record>, id: nat)
    requires id < |before| && id < |after|
  {
    |after[id].opponents| > |before[id].opponents|
  }

  function NewOpponent(before: seq<Record>, after: seq<Record>, id: nat): nat
    requires id < |before| && id < |after| && Faced(before, after, id)
  {
    after[id].opponents[|before[id].opponents|]
  }

  /** Exactly the players listed in `stepped` took one result of `round`; every
      other record is as it was. */
  ghost predicate SteppedExactly(before: seq<Record>, after: seq<Record>, stepped: seq<nat>, round: nat) {
    && |after| == |before|
    && forall id :: 0 <= id < |before| ==>
         if id in stepped then Stepped(before[id], after[id], round, |before|)
         else after[id] == before[id]
  }

  /** Every listed player who met an opponent met another listed player of the
      same score, who recorded the meeting back, and exactly one of the two won. */
  ghost predicate PairedUp(before: seq<Record>, after: seq<Record>, played: seq<nat>) {
    && |after| == |before|
    && AllIn(played, |before|)
    && forall id :: id in played && id < |before| && Faced(before, after, id) ==>
         var o := NewOpponent(before, after, id);
         && o in played && o != id && o < |before|
         && before[o].wins == before[id].wins
         && Faced(before, after, o) && NewOpponent(before, after, o) == id
         && (Won(before[id], after[id]) != Won(before[o], after[o]))
  }

  /** Lines 30, 38 and 42: a win is one result of the round that raises the
      wins, with no opponent recorded by itself. */
  lemma WinSteps(r: Record, round: nat, n: nat)
    ensures Stepped(r, Win(r), round, n) && Won(r, Win(r))
    ensures Win(r).opponents == r.opponents
  {
  }

  /** Lines 39-40 and 43-44: a loss is one result of the round, logged with
      the round, with no opponent recorded by itself. */
  lemma LoseSteps(r: Record, round: nat, n: nat)
    ensures Stepped(r, Lose(r, round), round, n) && !Won(r, Lose(r, round))
    ensures Lose(r, round).opponents == r.opponents
  {
  }

  /** Lines 37-46, one player's side of a match: one result of the round, a
      win exactly when `won`, and `opponent` appended to the opponents. */
  lemma MatchResultSteps(r: Record, opponent: nat, won: bool, round: nat, n: nat)
    requires opponent < n
    ensures var m := MatchResult(r, opponent, won, round);
      && Stepped(r, m, round, n)
      && Won(r, m) == won
      && m.opponents == r.opponents + [opponent]
  {
    var m := MatchResult(r, opponent, won, round);
    assert m.opponents[..|r.opponents|] == r.opponents;
  }

  /** A player still in play (fewer than two losses, one result per round) who
      takes one result of the next round stays well formed, with one more result. */
  lemma StepKeepsWellFormed(before: Record, after: Record, elapsed: nat, n: nat)
    requires WellFormed(before, elapsed, n)
    requires before.losses < 2 && before.wins + before.losses == elapsed
    requires Stepped(before, after, elapsed + 1, n)
    ensures WellFormed(after, elapsed + 1, n)
    ensures after.wins + after.losses == elapsed + 1
  {
    if after.opponents != before.opponents {
      assert after.opponents == before.opponents + [after.opponents[|before.opponents|]];
    }
  }

  /** Untouched records stay well formed as rounds go by. */
  lemma WellFormedLater(r: Record, elapsed: nat, n: nat)
    requires WellFormed(r, elapsed, n)
    ensures WellFormed(r, elapsed + 1, n)
  {
  }

  /** Two rounds of stepping over disjoint sets of players compose. */
  lemma SteppedCompose(a: seq<Record>, b: seq<Record>, c: seq<Record>,
                       s1: seq<nat>, s2: seq<nat>, round: nat)
    requires SteppedExactly(a, b, s1, round) && SteppedExactly(b, c, s2, round)
    requires forall id :: id in s1 ==> id !in s2
    ensures SteppedExactly(a, c, s1 + s2, round)
  {
    forall id | 0 <= id < |a|
      ensures if id in s1 + s2 then Stepped(a[id], c[id], round, |a|) else c[id] == a[id]
    {
      if id in s1 {
        assert c[id] == b[id];
      } else if id in s2 {
        assert b[id] == a[id];
      }
    }
  }

  /** Pairings made on disjoint sets of players compose. */
  lemma PairedCompose(a: seq<Record>, b: seq<Record>, c: seq<Record>,
                      s1: seq<nat>, s2: seq<nat>, round: nat)
    requires SteppedExactly(a, b, s1, round) && SteppedExactly(b, c, s2, round)
    requires PairedUp(a, b, s1) && PairedUp(b, c, s2)
    requires forall id :: id in s1 ==> id !in s2
    ensures PairedUp(a, c, s1 + s2)
  {
    forall id | id in s1 + s2 && id < |a| && Faced(a, c, id)
      ensures var o := NewOpponent(a, c, id);
        && o in s1 + s2 && o != id && o < |a|
        && a[o].wins == a[id].wins
        && Faced(a, c, o) && NewOpponent(a, c, o) == id
        && (Won(a[id], c[id]) != Won(a[o], c[o]))
    {
      if id in s1 {
        assert c[id] == b[id];
        var o := NewOpponent(a, b, id);
        assert o in s1;
        assert c[o] == b[o];
      } else {
        assert id in s2;
        assert b[id] == a[id];
        var o := NewOpponent(b, c, id);
        assert o in s2;
        assert o !in s1;
        assert b[o] == a[o];
      }
    }
  }

  lemma DistinctConcat(a: seq<nat>, b: seq<nat>)
    requires Distinct(a) && Distinct(b)
    requires forall id :: id in a ==> id !in b
    ensures Distinct(a + b)
  {
    forall i, j | 0 <= i < j < |a + b|
      ensures (a + b)[i] != (a + b)[j]
    {
      if i < |a| && j >= |a| {
        assert (a + b)[i] in a && (a + b)[j] in b;
      }
    }
  }

  lemma {:induction false} DistinctByMultiset(a: seq<nat>, b: seq<nat>)
    requires multiset(a) == multiset(b) && Distinct(b)
    ensures Distinct(a)
  {
    forall i, j | 0 <= i < j < |a|
      ensures a[i] != a[j]
    {
      if a[i] == a[j] {
        var x := a[i];
        assert a == a[..i] + [x] + a[i + 1..j] + [x] + a[j + 1..];
        assert multiset(a)[x] >= 2;
        DistinctOnce(b, x);
      }
    }
  }

  lemma {:induction false} DistinctOnce(s: seq<nat>, x: nat)
    requires Distinct(s)
    ensures multiset(s)[x] <= 1
  {
    if s != [] {
      var t := s[..|s| - 1];
      assert s == t + [s[|s| - 1]];
      assert Distinct(t);
      DistinctOnce(t, x);
      if s[|s| - 1] == x {
        assert x !in t;
      }
    }
  }

  lemma DistinctSplit(a: seq<nat>, b: seq<nat>)
    requires Distinct(a + b)
    ensures Distinct(a) && Distinct(b)
    ensures forall x :: x in a ==> x !in b
  {
    forall i, j | 0 <= i < j < |a| ensures a[i] != a[j] {
      assert a[i] == (a + b)[i] && a[j] == (a + b)[j];
    }
    forall i, j | 0 <= i < j < |b| ensures b[i] != b[j] {
      assert b[i] == (a + b)[|a| + i] && b[j] == (a + b)[|a| + j];
    }
    forall i, j | 0 <= i < |a| && 0 <= j < |b| ensures a[i] != b[j] {
      assert a[i] == (a + b)[i] && b[j] == (a + b)[|a| + j];
    }
  }

  /** A set whose members are injectively mapped into `b` is no larger than `b`. */
  lemma {:induction false} InjectionCard(a: set<nat>, b: set<nat>, f: map<nat, nat>)
    requires forall x :: x in a ==> x in f && f[x] in b
    requires forall x, y :: x in a && y in a && f[x] == f[y] ==> x == y
    ensures |a| <= |b|
    decreases a
  {
    if a != {} {
      var x :| x in a;
      InjectionCard(a - {x}, b - {f[x]}, f);
    }
  }

  /** A set of ids drawn from a list is no larger than the list. */
  lemma {:induction false} SetFromListCard(ids: seq<nat>, a: set<nat>)
    requires forall x :: x in a ==> x in ids
    ensures |a| <= |ids|
  {
    if ids != [] {
      var last := ids[|ids| - 1];
      var rest := ids[..|ids| - 1];
      assert ids == rest + [last];
      SetFromListCard(rest, a - {last});
    }
  }
}
