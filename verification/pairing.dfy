/**
  Single round-robin pairing by the circle method (`round_robin_pairings`):
  player 0 stays put, the others rotate right by one after every round, and
  each round pairs the first half of the lineup with the reversed second half.
*/
module Pairing {
  import opened Rotation
  import opened CircleMethod

  type Player = string

  /** One table of one round: (home, away). */
  type Pair = (Player, Player)

  type Round = seq<Pair>

  type Schedule = seq<Round>

  predicate Distinct(players: seq<Player>) {
    forall i, j :: 0 <= i < j < |players| ==> players[i] != players[j]
  }

  /** The inputs for which the circle method is meant: an even number, at least two, no repeats. */
  predicate ValidRoster(players: seq<Player>) {
    |players| >= 2 && |players| % 2 == 0 && Distinct(players)
  }

  /**
    One round from one lineup: the left half against the reversed right half,
    so slot `i` plays the slot mirrored from the end.
  */
  function PairUp(lineup: seq<Player>): (r: Round)
    ensures |r| == |lineup| / 2
    ensures forall i :: 0 <= i < |r| ==> r[i] == (lineup[i], lineup[|lineup| - 1 - i])
  {
    var half := |lineup| / 2;
    var left := lineup[..half];
    var right := Reverse(lineup[half..]);
    seq(half, i requires 0 <= i < half => (left[i], right[i]))
  }

  /** `count` rounds from the lineup `[fixed] + others`, rotating `others` after each. */
  function Rounds(fixed: Player, others: seq<Player>, count: nat): (r: Schedule)
    requires |others| > 0 || count == 0
    ensures |r| == count
    ensures forall k :: 0 <= k < count ==> |r[k]| == (|others| + 1) / 2
    ensures |others| > 0 ==> forall k :: 0 <= k < count ==> r[k][0].0 == fixed
    decreases count
  {
    if count == 0 then []
    else [PairUp([fixed] + others)] + Rounds(fixed, RotateRight(others), count - 1)
  }

  /** `round_robin_pairings(players)`: `players[0]` raises on an empty list, hence the requires. */
  function RoundRobinPairings(players: seq<Player>): (r: Schedule)
    requires |players| > 0
    ensures |r| == |players| - 1
    ensures forall k :: 0 <= k < |r| ==> |r[k]| == |players| / 2
    ensures forall k :: 0 <= k < |r| ==> r[k][0].0 == players[0]
  {
    Rounds(players[0], players[1..], |players| - 1)
  }

  /** The lineup of round `r`: the fixed player, then the others rotated `r` times. */
  function Lineup(players: seq<Player>, r: nat): (l: seq<Player>)
    requires |players| >= 2
    ensures |l| == |players|
  {
    [players[0]] + RotateTimes(players[1..], r)
  }

  /** Round `r` is the pairing of the lineup after `r` rotations. */
  lemma {:induction false} RoundsAt(fixed: Player, others: seq<Player>, count: nat, r: nat)
    requires |others| > 0 && r < count
    ensures Rounds(fixed, others, count)[r] == PairUp([fixed] + RotateTimes(others, r))
    decreases r
  {
    var first := PairUp([fixed] + others);
    var rotated := RotateRight(others);
    var rest := Rounds(fixed, rotated, count - 1);
    assert Rounds(fixed, others, count) == [first] + rest;
    if r == 0 {
      assert RotateTimes(others, 0) == others;
    } else {
      RoundsAt(fixed, rotated, count - 1, r - 1);
      assert RotateTimes(others, r) == RotateTimes(rotated, r - 1);
      assert ([first] + rest)[r] == rest[r - 1];
    }
  }

  /** Round `r` of the schedule is the pairing of round `r`'s lineup. */
  lemma RoundIsPairedLineup(players: seq<Player>, r: nat)
    requires |players| >= 2 && r < |players| - 1
    ensures RoundRobinPairings(players)[r] == PairUp(Lineup(players, r))
  {
    var lineup := [players[0]] + RotateTimes(players[1..], r);
    assert Lineup(players, r) == lineup;
    RoundsAt(players[0], players[1..], |players| - 1, r);
    assert RoundRobinPairings(players) == Rounds(players[0], players[1..], |players| - 1);
  }

  /** Slot `k` of round `r`'s lineup holds player `Pos(n - 1, r, k)`. */
  lemma LineupAt(players: seq<Player>, r: nat, k: nat)
    requires |players| >= 2 && r < |players| - 1 && k < |players|
    ensures Lineup(players, r)[k] == players[Pos(|players| - 1, r, k)]
  {
    if k > 0 {
      RotateTimesIndex(players[1..], r, k - 1);
      PosMod(|players| - 1, r, k);
    }
  }

  /**
    Table `i` of round `r` seats the players at lineup slots `i` and
    `n - 1 - i`, read through the index model.
  */
  lemma PairAt(players: seq<Player>, r: nat, i: nat)
    requires |players| >= 2 && r < |players| - 1 && i < |players| / 2
    ensures var m := |players| - 1;
      RoundRobinPairings(players)[r][i] == (players[Pos(m, r, i)], players[Pos(m, r, m - i)])
  {
    RoundIsPairedLineup(players, r);
    LineupAt(players, r, i);
    LineupAt(players, r, |players| - 1 - i);
  }

  /** Both players of every pair of a round, in order. */
  function Flatten(round: Round): (s: seq<Player>)
    ensures |s| == 2 * |round|
  {
    if round == [] then [] else [round[0].0, round[0].1] + Flatten(round[1..])
  }

  lemma FlattenCons(pair: Pair, rest: Round)
    ensures Flatten([pair] + rest) == [pair.0, pair.1] + Flatten(rest)
  {
    assert ([pair] + rest)[1..] == rest;
  }

  /** Pairing a lineup takes its two ends, then pairs what lies between. */
  lemma PairUpPeel(lineup: seq<Player>)
    requires |lineup| >= 2
    ensures PairUp(lineup) == [(lineup[0], lineup[|lineup| - 1])] + PairUp(lineup[1..|lineup| - 1])
  {
  }

  /** The multiset bookkeeping of one peeling step. */
  lemma PairUpStep(lineup: seq<Player>)
    requires |lineup| >= 2
    ensures var inner := lineup[1..|lineup| - 1];
      && multiset(Flatten(PairUp(lineup))) == multiset([lineup[0], lineup[|lineup| - 1]]) + multiset(Flatten(PairUp(inner)))
      && multiset(lineup) == multiset([lineup[0], lineup[|lineup| - 1]]) + multiset(inner)
  {
    var first, last := lineup[0], lineup[|lineup| - 1];
    var inner := lineup[1..|lineup| - 1];
    PairUpPeel(lineup);
    FlattenCons((first, last), PairUp(inner));
    EndsAndInner(lineup);
  }

  lemma EndsAndInner(lineup: seq<Player>)
    requires |lineup| >= 2
    ensures multiset(lineup) == multiset([lineup[0], lineup[|lineup| - 1]]) + multiset(lineup[1..|lineup| - 1])
  {
    assert lineup == [lineup[0]] + lineup[1..|lineup| - 1] + [lineup[|lineup| - 1]];
  }

  /** An even lineup is used up exactly: every entry sits at exactly one table. */
  lemma {:induction false} PairUpPermutes(lineup: seq<Player>)
    requires |lineup| % 2 == 0
    ensures multiset(Flatten(PairUp(lineup))) == multiset(lineup)
    decreases |lineup|
  {
    if |lineup| > 0 {
      PairUpStep(lineup);
      PairUpPermutes(lineup[1..|lineup| - 1]);
    }
  }

  /**
    An odd lineup leaves its middle entry without a table: the circle method
    has no bye, so with an odd roster one player sits out every round.
  */
  lemma {:induction false} PairUpSkipsMiddle(lineup: seq<Player>)
    requires |lineup| % 2 == 1
    ensures multiset(Flatten(PairUp(lineup))) + multiset{lineup[|lineup| / 2]} == multiset(lineup)
    decreases |lineup|
  {
    var n := |lineup|;
    if n == 1 {
      assert lineup == [lineup[0]];
    } else {
      var inner := lineup[1..n - 1];
      var h := (n - 2) / 2;
      assert |inner| == n - 2 && (n - 2) % 2 == 1 && h + 1 == n / 2;
      assert inner[h] == lineup[n / 2];
      PairUpSkipsMiddle(inner);
      PairUpStep(lineup);
      AddBack(multiset(Flatten(PairUp(lineup))), multiset([lineup[0], lineup[n - 1]]),
        multiset(Flatten(PairUp(inner))), multiset(inner), multiset(lineup), multiset{inner[h]});
    }
  }

  /** Multiset bookkeeping: adding back what a part left out restores the whole. */
  lemma AddBack(whole: multiset<Player>, ends: multiset<Player>, part: multiset<Player>,
                inner: multiset<Player>, all: multiset<Player>, rest: multiset<Player>)
    requires whole == ends + part && part + rest == inner && all == ends + inner
    ensures whole + rest == all
  {
  }

  lemma {:induction false} DistinctOnce(players: seq<Player>, p: Player)
    requires Distinct(players) && p in players
    ensures multiset(players)[p] == 1
    decreases |players|
  {
    assert players == [players[0]] + players[1..];
    if players[0] == p {
      assert p !in players[1..];
    } else {
      DistinctOnce(players[1..], p);
    }
  }

  /** Each lineup is a rearrangement of the roster. */
  lemma LineupPermutes(players: seq<Player>, r: nat)
    requires |players| >= 2
    ensures multiset(Lineup(players, r)) == multiset(players)
  {
    RotateTimesPermutes(players[1..], r);
    assert players == [players[0]] + players[1..];
  }

  /**
    Every round is a perfect matching of the roster: the players seated in
    it are the roster itself, counted with multiplicity, so with distinct
    names each player sits at exactly one table.
  */
  lemma RoundIsPerfectMatching(players: seq<Player>, r: nat)
    requires |players| >= 2 && |players| % 2 == 0 && r < |players| - 1
    ensures multiset(Flatten(RoundRobinPairings(players)[r])) == multiset(players)
    ensures Distinct(players) ==>
      forall p :: p in players ==> multiset(Flatten(RoundRobinPairings(players)[r]))[p] == 1
  {
    RoundIsPairedLineup(players, r);
    PairUpPermutes(Lineup(players, r));
    LineupPermutes(players, r);
    if Distinct(players) {
      forall p | p in players
        ensures multiset(players)[p] == 1
      {
        DistinctOnce(players, p);
      }
    }
  }

  /**
    With an odd roster (which `round_robin_pairings` does not reject) each round leaves
    out exactly the player in the middle slot of its lineup.
  */
  lemma OddRosterSitsOneOut(players: seq<Player>, r: nat)
    requires |players| % 2 == 1 && r < |players| - 1
    ensures var sitting := Lineup(players, r)[|players| / 2];
      sitting in players &&
      multiset(Flatten(RoundRobinPairings(players)[r])) + multiset{sitting} == multiset(players)
  {
    RoundIsPairedLineup(players, r);
    PairUpSkipsMiddle(Lineup(players, r));
    LineupPermutes(players, r);
    assert Lineup(players, r)[|players| / 2] in multiset(Lineup(players, r));
  }

  /** Nobody is drawn against themself. */
  lemma NoSelfPairs(players: seq<Player>, r: nat, i: nat)
    requires ValidRoster(players) && r < |players| - 1 && i < |players| / 2
    ensures RoundRobinPairings(players)[r][i].0 != RoundRobinPairings(players)[r][i].1
  {
    var m := |players| - 1;
    PairAt(players, r, i);
    SlotOfPos(m, r, i);
    SlotOfPos(m, r, m - i);
  }

  /** The pair is `p` against `q`, in either order. */
  predicate Meets(pair: Pair, p: Player, q: Player) {
    pair == (p, q) || pair == (q, p)
  }

  /** Every (round, table) coordinate at which `p` and `q` face each other. */
  function Meetings(schedule: Schedule, p: Player, q: Player): set<(nat, nat)> {
    set r: nat, i: nat | r < |schedule| && i < |schedule[r]| && Meets(schedule[r][i], p, q) :: (r, i)
  }

  lemma MeetsParts(pair: Pair, p: Player, q: Player, x: Player, y: Player)
    requires pair == (x, y) && Meets(pair, p, q)
    ensures (x == p && y == q) || (x == q && y == p)
  {
  }

  lemma InMeetings(schedule: Schedule, p: Player, q: Player, r: nat, i: nat)
    requires r < |schedule| && i < |schedule[r]| && Meets(schedule[r][i], p, q)
    ensures (r, i) in Meetings(schedule, p, q)
  {
  }

  lemma FromMeetings(schedule: Schedule, p: Player, q: Player, c: (nat, nat))
    requires c in Meetings(schedule, p, q)
    ensures c.0 < |schedule| && c.1 < |schedule[c.0]| && Meets(schedule[c.0][c.1], p, q)
  {
  }

  lemma DistinctIndex(players: seq<Player>, x: nat, y: nat)
    requires Distinct(players) && x < |players| && y < |players| && players[x] == players[y]
    ensures x == y
  {
  }

  lemma DistinctNames(players: seq<Player>, x: nat, y: nat)
    requires Distinct(players) && x < |players| && y < |players| && x != y
    ensures players[x] != players[y]
  {
  }

  lemma IndexOf(players: seq<Player>, p: Player) returns (a: nat)
    requires p in players
    ensures a < |players| && players[a] == p
  {
    a :| 0 <= a < |players| && players[a] == p;
  }

  /** An even roster has an odd number of rounds and exactly `n / 2` tables. */
  lemma EvenRoster(n: nat)
    requires n >= 2 && n % 2 == 0
    ensures (n - 1) % 2 == 1 && 2 * (n / 2) == n
  {
  }

  /** Two distinct positions of an even roster are rivals in the index model. */
  lemma RosterRivals(players: seq<Player>, a: nat, b: nat)
    requires |players| >= 2 && |players| % 2 == 0 && a < |players| && b < |players| && a != b
    ensures Rivals(|players| - 1, a, b)
  {
    EvenRoster(|players|);
  }

  /** Players facing each other in the index model are drawn against each other. */
  lemma MeetWhereFacing(players: seq<Player>, a: nat, b: nat, r: nat, i: nat)
    requires |players| >= 2 && |players| % 2 == 0 && a < |players| && b < |players|
    requires Seated(|players| - 1, r, i, a, b)
    ensures var schedule := RoundRobinPairings(players);
      i < |schedule[r]| && Meets(schedule[r][i], players[a], players[b])
  {
    PairAt(players, r, i);
  }

  /** With distinct names, players drawn against each other face each other in the index model. */
  lemma FacingWhereMeet(players: seq<Player>, a: nat, b: nat, r: nat, i: nat)
    requires ValidRoster(players) && a < |players| && b < |players|
    requires r < |players| - 1 && i < |players| / 2
    requires Meets(RoundRobinPairings(players)[r][i], players[a], players[b])
    ensures Seated(|players| - 1, r, i, a, b)
  {
    var m := |players| - 1;
    EvenRoster(|players|);
    PairAt(players, r, i);
    var x, y := Pos(m, r, i), Pos(m, r, m - i);
    MeetsParts(RoundRobinPairings(players)[r][i], players[a], players[b], players[x], players[y]);
    if players[x] == players[a] {
      DistinctIndex(players, x, a);
      DistinctIndex(players, y, b);
    } else {
      DistinctIndex(players, x, b);
      DistinctIndex(players, y, a);
    }
  }

  /**
    Across the n - 1 rounds every two distinct players meet at exactly one
    table of exactly one round.
  */
  lemma EveryPairMeetsOnce(players: seq<Player>, p: Player, q: Player)
    requires ValidRoster(players) && p in players && q in players && p != q
    ensures |Meetings(RoundRobinPairings(players), p, q)| == 1
  {
    var schedule := RoundRobinPairings(players);
    var a := IndexOf(players, p);
    var b := IndexOf(players, q);
    RosterRivals(players, a, b);
    var c0 := Seat(|players| - 1, a, b);
    MeetWhereFacing(players, a, b, c0.0, c0.1);
    InMeetings(schedule, p, q, c0.0, c0.1);
    forall c | c in Meetings(schedule, p, q)
      ensures c == c0
    {
      MeetingAtSeat(players, a, b, c);
    }
    assert Meetings(schedule, p, q) == {c0};
  }

  /** Any meeting of players `a` and `b` is at their seat in the index model. */
  lemma MeetingAtSeat(players: seq<Player>, a: nat, b: nat, c: (nat, nat))
    requires ValidRoster(players) && a < |players| && b < |players| && a != b
    requires Rivals(|players| - 1, a, b)
    requires c in Meetings(RoundRobinPairings(players), players[a], players[b])
    ensures c == Seat(|players| - 1, a, b)
  {
    FromMeetings(RoundRobinPairings(players), players[a], players[b], c);
    FacingWhereMeet(players, a, b, c.0, c.1);
    SeatedOnlyAt(|players| - 1, a, b, c.0, c.1);
  }
}
