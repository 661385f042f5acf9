# Swiss-draw tournament simulator: a verified model

This project models `swiss_draw_simulation` (`swiss_simulation.py`, lines 5-74).
The function plays one Swiss-system tournament and returns three things: the
count of unbeaten finishers, the count of one-loss finishers, and how many of
the one-loss finishers lost in each round and how many of those ranked among
the top `qualify`.

The model follows the code's own shape:

- **Arena.** The player records live in an `array<Record>` indexed by player
  id. A match updates two entries in place. `opponents` holds ids, so the
  tie-break reads each opponent's final record, as the shared dictionaries do.
- **Pool.** The players still in the tournament form a `seq<nat>` of ids,
  rebuilt every round.
- **Randomness.** `random.shuffle` and `random.choice` come from an `Rng`
  value. It holds two total functions keyed by round, score group and
  position. The shuffle is CPython's Fisher-Yates, driven by those draws.
  Every property holds for every `Rng`.

Modules:

- `SwissRecords` (`records.dfy`): the record, a single match result, and the
  invariant that holds between rounds.
  - Every record has at most two losses and one loss round per loss.
  - Loss rounds are strictly increasing and no later than the rounds played.
  - `wins + losses` never exceeds the rounds played.
  - Every member of the pool has exactly one result per round played.
  - The pool has no duplicates.
- `SwissRound` (`round.dfy`): one round, as a chain of methods.
  - `PlayRound` retires players with two losses.
  - `PlayGroups` walks the score groups from the highest win count down.
  - `PlayScoreGroup` plays one group, taking its members as they stood when
    the round began.
  - `PlayGroup` shuffles the group and pops the odd member. An undefeated
    odd member is set aside; otherwise it gets an unopposed win. The rest
    play in consecutive pairs.
  - `PlayPairs` and `PlayMatch` play the pairs.
  - `RoundOutcome` states what a whole round does. `RoundKeepsInvariant`
    proves that the round preserves the between-rounds invariant.
- `SwissStandings` (`standings.dfy`): the opponent-win-percentage tie-break,
  the ranking (an insertion sort on an array), the two counts, and the
  per-round tally.
- `SwissSimulation` (`simulation.dfy`): the whole function from start to
  finish. `PlayRounds` returns, as ghost outputs, the records and pool before
  round 1 and after each round; each step is one round's outcome. Over that
  trace the players without a loss at least halve every round. So at most
  `players / 2^rounds` finishers are unbeaten: one for 8 players over 3
  rounds.

Where the code does something other than its comments or a reader would expect, the model follows the code:

- **Undefeated odd members leave the tournament.** The comment at line 23
  says an undefeated odd member plays a one-loss player. The code instead
  appends it to `one_loss_records` (line 28), which nothing reads. That
  player takes no further part: it is not in the next pool and not in the
  final ranking. No cross-group match is played.
- **The final ranking holds only the finishers.** Players retired at line 10
  are dropped from `records`, so lines 53-72 see only the final pool.
- **Two-loss finishers stay in the ranking.** A player who takes a second
  loss in the last round stays ranked, because the retirement filter runs
  only at the start of a round.
- **The tie-break is a mean of wins, not a rate.** It is the mean of the
  opponents' final win counts, not a fraction of their matches. The 0.33
  floor applies to that mean. `OwpBounded` states the bound that follows: the
  larger of 0.33 and the opponents' maximum win count.

## Model

| member | source | states |
|---|---|---|
| SwissRecords.WinSteps | swiss_simulation.py:30-42 | A win is one result of the round: wins go up by one, losses and loss rounds stay, and no opponent is recorded by the win itself |
| SwissRecords.LoseSteps | swiss_simulation.py:39-44 | A loss is one result of the round: losses go up by one with the round appended to the loss rounds, wins stay, and no opponent is recorded by the loss itself |
| SwissRecords.MatchResultSteps | swiss_simulation.py:37-46 | One player's side of a match is one result of the round, a win exactly when that player won, with the opponent's id appended to its opponents |
| SwissRecords.StepKeepsWellFormed | swiss_simulation.py:36-44 | A player in play with fewer than two losses who takes one result of round r keeps at most two losses and one loss round per loss, with loss rounds increasing and at most r, and has wins + losses equal to r |
| SwissRound.Retire | swiss_simulation.py:10 | The active players are exactly the pool members with fewer than two losses; no duplicates are introduced and the list does not grow |
| SwissRound.Select | swiss_simulation.py:12 | The players of the list with w wins and l losses, exactly, without duplicates: one part of a score group under the line-12 sort key |
| SwissRound.Group | swiss_simulation.py:12-16 | The score group of w wins holds exactly the active players with w wins, without duplicates |
| SwissRound.MaxWins | swiss_simulation.py:12-21 | No active player has more wins than the result, and some player has exactly that many (0 with no players): the score of the first group visited |
| SwissRound.AboveNext | swiss_simulation.py:12-16 | The players above w - 1 wins are exactly those above w plus the score group of w, so every active player falls in exactly one score group |
| SwissRound.GroupSize | swiss_simulation.py:16 | A score group's length is the number of active players with that many wins |
| SwissRound.AboveAll | swiss_simulation.py:15-16 | Taken together, the score groups cover every active player |
| SwissRound.NoneAbove | swiss_simulation.py:15-16 | No score group exists above the highest win count |
| SwissRound.Shuffle | swiss_simulation.py:22 | The shuffled group is a permutation of the group |
| SwissRound.ShuffledMembers | swiss_simulation.py:22 | A shuffled list of distinct players lists the same players, without duplicates |
| SwissRound.PlayMatch | swiss_simulation.py:36-46 | The winner gains one win; the loser gains one loss with the round appended to its loss rounds; each appends the other's id to its opponents; no other record changes |
| SwissRound.MatchPairs | swiss_simulation.py:36-46 | A match between two players of the same score gives each exactly one result of the round, pairs each with the other, and gives exactly one of them the win |
| SwissRound.PairsExtend | swiss_simulation.py:34-46 | One more match of two unplayed players of the same score extends the pairs played so far: each took one result, met the other, and every listed player has met someone |
| SwissRound.PlayPairs | swiss_simulation.py:34-48 | Each player of an even-length list takes exactly one result and meets exactly one partner of the same score, who meets it back; exactly one of each pair wins; nobody outside the list changes |
| SwissRound.ByeSteps | swiss_simulation.py:29-31 | An unopposed win gives that player one result, a win, and no opponent |
| SwissRound.GroupSplits | swiss_simulation.py:25-35 | Popping the last member of an odd shuffled group leaves an even list; the group splits into the players kept and the one set aside, with no duplicates |
| SwissRound.PairsReady | swiss_simulation.py:25-35 | After the pop and any unopposed win, the remaining pairs are distinct players of the group, all with the group's score |
| SwissRound.GroupOutcomeHolds | swiss_simulation.py:22-48 | Combining the pop, the unopposed win and the pairs gives the score group's outcome (as stated for PlayGroup) |
| SwissRound.PlayGroup | swiss_simulation.py:22-48 | Every player the group appends to the next pool took exactly one result of the round. Each met a partner of the same score, or is the popped member with a loss, given the unopposed win. The group splits exactly into those players and the set-aside list. That list holds the popped member exactly when it had no loss |
| SwissRound.RoundSoFarUntouched | swiss_simulation.py:21-48 | A score group not yet played is untouched: its members are in neither list and their records are as at the round's start |
| SwissRound.RoundSplitNext | swiss_simulation.py:21-48 | Playing the next score group extends the split of the active players into the next pool and the set-aside list |
| SwissRound.ExtrasKeyedNext | swiss_simulation.py:25-26 | After the next group, exactly the odd-sized score groups played so far have a popped member, taken from that group |
| SwissRound.ExtrasSetAsideNext | swiss_simulation.py:27-28 | After the next group, a popped member is set aside exactly when it had no loss, and every set-aside player is a popped member |
| SwissRound.ExtrasUnopposedNext | swiss_simulation.py:29-31 | After the next group, every player of the next pool who met nobody is its group's popped member, had a loss, and was given the win |
| SwissRound.RoundExtrasNext | swiss_simulation.py:25-31 | Playing the next score group preserves the three statements above about popped members |
| SwissRound.RoundSoFarNext | swiss_simulation.py:21-48 | Playing the next score group preserves the round's bookkeeping: results, pairing, the split and the popped members |
| SwissRound.RoundStarts | swiss_simulation.py:18-19 | Before any group is played, both lists are empty and no group lies above the top score |
| SwissRound.PlayScoreGroup | swiss_simulation.py:21-48 | One more score group played, lowering by one the score down to which the round's bookkeeping holds |
| SwissRound.PlayGroups | swiss_simulation.py:21-48 | After all score groups, the round's bookkeeping holds for every active player |
| SwissRound.RoundOutcomeHolds | swiss_simulation.py:9-50 | Bookkeeping over every score group gives the round's outcome (as stated for PlayRound) |
| SwissRound.PlayRound | swiss_simulation.py:9-50 | The next pool took exactly one result each, paired within score groups, exactly one winner per match. The active players split exactly into the next pool and the set-aside list, both without duplicates. Odd-sized score groups, and only those, have a popped member: set aside when it had no loss, otherwise the group's one unopposed winner |
| SwissRound.RoundStepGrows | swiss_simulation.py:9-50 | A round never takes a result away: every player's wins, losses, loss rounds and opponents only grow, by at most one result, and the number of records stays the same |
| SwissRound.RoundKeepsInvariant | swiss_simulation.py:8-50 | A round preserves the between-rounds invariant with one more round: every record stays well formed (at most two losses, one increasing loss round per loss) and every member of the next pool has wins + losses equal to the round; the pool never grows |
| SwissRound.NextPoolActive | swiss_simulation.py:47-50 | The next pool holds only active players and is no longer than the active list |
| SwissRound.NextPoolKeepsInvariant | swiss_simulation.py:47-50 | A duplicate-free next pool of active players, each with one result of the round, satisfies the invariant for that round |
| SwissRound.RecordsStayWellFormed | swiss_simulation.py:10-44 | Every record, in play, retired or set aside, stays well formed one round later |
| SwissRound.UndefeatedBeatOne | swiss_simulation.py:25-48 | A player of the next pool still without a loss had no loss before the round and beat a partner from the pool who also had none and now has one, and that partner's new opponent is this player |
| SwissRound.RoundHalvesUndefeated | swiss_simulation.py:25-48 | A round leaves at most half as many players without a loss in the next pool as there were in the pool before it |
| SwissStandings.OpponentWins | swiss_simulation.py:54 | The opponents' wins summed: 0 with no opponents, and never less than any single opponent's wins |
| SwissStandings.MeanOpponentWins | swiss_simulation.py:54-56 | Non-negative; 0 with no opponents; otherwise the value that, times the number of opponents, gives their summed wins |
| SwissStandings.OpponentWinPercentage | swiss_simulation.py:54-58 | The tie-break is at least 0.33 and at least the mean of the opponents' wins, and is one of the two; with no opponents it is 0.33, so there is no division by zero |
| SwissStandings.OpponentWinsBounded | swiss_simulation.py:54 | Opponents with at most k wins each sum to at most k times their number |
| SwissStandings.OwpBounded | swiss_simulation.py:54-58 | The tie-break never exceeds the larger of 0.33 and the opponents' highest win count |
| SwissStandings.StandingOf | swiss_simulation.py:58 | A finisher's standing keeps its id, copies its wins, losses and loss rounds, and carries the opponent-win-percentage tie-break of its record, at least 0.33 |
| SwissStandings.Standings | swiss_simulation.py:53-58 | The finishers' standings list each finisher of the pool in turn, one per player |
| SwissStandings.AttachOwp | swiss_simulation.py:53-58 | The loop attaching the tie-break to every finisher produces exactly the finishers' standings |
| SwissStandings.Rank | swiss_simulation.py:60 | The final list is non-increasing in wins, and in the tie-break among equal wins, and is a permutation of the list before sorting |
| SwissStandings.Insert | swiss_simulation.py:60 | Inserting the next element into a ranked prefix keeps the prefix ranked and the array a permutation |
| SwissStandings.CountUnbeaten | swiss_simulation.py:63 | The number of lines with every round won and no loss: at most the number of lines, and 0 exactly when no line is unbeaten |
| SwissStandings.CountOneLoss | swiss_simulation.py:64 | The number of lines with one loss and every other round won: at most the number of lines, and 0 exactly when no line has one loss |
| SwissStandings.CountsPermute | swiss_simulation.py:60-64 | Two lists holding the same lines give the same two counts, so counting the sorted list counts the finishers |
| SwissStandings.CountsDisjoint | swiss_simulation.py:63-64 | Unbeaten and one-loss finishers are disjoint, so loss_0 + loss_1 is at most the number of finishers |
| SwissStandings.UnbeatenLead | swiss_simulation.py:60-63 | In a ranking of finishers with one result per round played, the unbeaten finishers are exactly the first loss_0 lines |
| SwissStandings.Tallied | swiss_simulation.py:67-72 | For any round, the qualified count never exceeds the total count |
| SwissStandings.TallyLossRounds | swiss_simulation.py:62-72 | The loop builds a map whose keys are exactly the rounds with a positive total, each holding its reference tally (a missing key reads as zero, as in a defaultdict) |
| SwissStandings.TallyLosses | swiss_simulation.py:69-72 | One finisher's loss rounds each add one to their round's total, and also to its qualified count when the finisher ranks within `qualify`; every key keeps a positive total |
| SwissStandings.Places | swiss_simulation.py:71 | The number of qualifying ranks is at most the number of finishers and at most qualify, and never negative |
| SwissStandings.TalliedSumsStep | swiss_simulation.py:67-72 | Adding a finisher to the ranking adds its loss rounds (up to the bound) to the sums, if it has exactly one loss, and to the qualified sum when its rank is below qualify |
| SwissStandings.OccurrencesOfOne | swiss_simulation.py:69 | A single loss round is counted in the sum up to hi exactly when it is at most hi |
| SwissStandings.TalliedSums | swiss_simulation.py:64-72 | Over rounds 1..rounds, the totals add up to loss_1 and the qualified counts add up to the number of one-loss finishers ranked within qualify |
| SwissStandings.TalliedWithin | swiss_simulation.py:67-70 | A round with a positive total lies in 1..rounds |
| SwissStandings.SumsAgree | swiss_simulation.py:62-72 | The sums over the built map equal the sums of the reference tallies |
| SwissStandings.TallySummary | swiss_simulation.py:62-72 | Every key lies in 1..rounds and has qualified at most total; the totals add up to loss_1; the qualified counts add up to the number of one-loss finishers ranked within qualify, at most qualify |
| SwissSimulation.FreshStart | swiss_simulation.py:6 | Fresh records and a pool listing each entrant once satisfy the between-rounds invariant with no round played |
| SwissSimulation.Entrants | swiss_simulation.py:6 | A new arena of one fresh record per entrant, and the pool listing ids 0..n-1 in order |
| SwissSimulation.PlayRounds | swiss_simulation.py:6-50 | Returns the trace of the states: it starts at the initial records and pool and ends at the final arena and pool, with one entry per round played, and each step is a round's outcome for that round. After all rounds every record is well formed and every finisher is distinct with wins + losses equal to the number of rounds played |
| SwissSimulation.TraceExtends | swiss_simulation.py:8-50 | One more round's outcome from the last state extends the trace |
| SwissSimulation.TraceStepHalves | swiss_simulation.py:9-50 | Each round of the trace keeps the between-rounds invariant and at most halves the players without a loss |
| SwissSimulation.TraceHalves | swiss_simulation.py:8-50 | After r rounds of the trace, the invariant holds and at most (players without a loss at the start) / 2^r remain |
| SwissSimulation.UnbeatenUndefeated | swiss_simulation.py:53-63 | The unbeaten finishers are no more than the finishers without a loss |
| SwissSimulation.UnbeatenHalved | swiss_simulation.py:6-63 | Starting from fresh entrants, at most players / 2^rounds finishers are unbeaten (rounded down): 8 players over 3 rounds leave at most one |
| SwissSimulation.FinishersPlayedOut | swiss_simulation.py:50-69 | Every finisher's loss rounds lie within 1..rounds, every finisher has wins + losses equal to the rounds played, and the ranking has one entry per finisher |
| SwissSimulation.FinalStandings | swiss_simulation.py:52-74 | The ranking is a sorted permutation of the finishers' standings; loss_0 and loss_1 count the unbeaten and one-loss finishers, both in the ranking and among the finishers before sorting, with loss_0 + loss_1 at most the finishers; the unbeaten finishers are exactly the first loss_0 lines; the results keys are exactly the rounds with a positive reference tally over the ranking, and every round reads as that tally; every results key lies in 1..rounds with qualified at most total; totals add up to loss_1; qualified counts add up to the one-loss finishers within qualify, at most qualify |
| SwissSimulation.SwissDrawSimulation | swiss_simulation.py:5-74 | The whole function: the trace runs from fresh records and the pool of ids 0..n-1, through one round's outcome per round played, to the final records and finishers; every record stays well formed; finishers are distinct and played every round; the ranking is a sorted permutation of the finishers; loss_0 and loss_1 count the unbeaten and one-loss finishers, and the unbeaten finishers are the first loss_0 lines; loss_0 + loss_1 is at most the finishers, at most the players; loss_0 is at most players / 2^rounds; the results keys are exactly the rounds with a positive reference tally over the ranking, and every round reads as that tally; every key lies in 1..rounds with qualified at most total; totals add up to loss_1; qualified counts add up to at most qualify |

## Left out

- `main` and the command-line parsing (`swiss_simulation.py`, lines 95-116) are input and output only.
- `calculate_qualification_rates` (lines 76-93) is a loop that calls the simulator and then computes floating-point rates and averages. It is not modelled.
- The random number generator is not modelled. Shuffle draws and match winners are inputs (`Rng`), and every property is proved for all of them. No claim about distributions is made.
- Floating-point rounding in the tie-break is not modelled. The model uses exact reals, with the floor 33/100.
- SwissStandings.Rank: the body only swaps neighbours that are strictly out of order, so, like Python's stable sort, it keeps tied lines (same wins and tie-break) in pool order. Its contract promises only a sorted permutation, not that order. So the contracts do not fix which of several tied one-loss finishers at the `qualify` cutoff count as qualified: the qualified sum is stated over the ranking the model produced.
- The order of the next pool is modelled, but no property depends on it.
- The order in which score groups are visited at line 21 is modelled as descending wins. A win count nobody has gives an empty group, which plays nothing; the dictionary has no such key.
- The match against a one-loss player that the comment at line 23 announces for an undefeated odd member is not modelled, because the code does not play it.
- SwissStandings.TallyLossRounds: the nested defaultdict becomes a map from round to a pair of counters, and a round missing from the map reads as zero. In the code, a round's inner dictionary has no `qualified` key until a qualifier lost in that round (reading it gives 0). The model always stores both counters.
- SwissSimulation.SwissDrawSimulation: the sums of `total` and `qualified` are stated over rounds 1..rounds, which the contract shows contain every key.
- SwissSimulation.SwissDrawSimulation: the trace of states and pools, the final records, pool and ranking are ghost outputs that the code does not return. They exist only to state the contract.
