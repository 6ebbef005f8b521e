/**
  Double round-robin (`double_round_robin`): the single schedule followed by
  a second pass over the same rounds with home and away swapped at every
  table.
*/
module DoubleRound {
  import opened Pairing
  import opened CircleMethod

  /** The round with home and away swapped at every table. */
  function MirrorRound(round: Round): (r: Round)
    ensures |r| == |round|
    ensures forall i :: 0 <= i < |round| ==> r[i].0 == round[i].1 && r[i].1 == round[i].0
  {
    if round == [] then [] else [(round[0].1, round[0].0)] + MirrorRound(round[1..])
  }

  /** Every round of `schedule` mirrored, in the same order. */
  function MirrorAll(schedule: Schedule): (r: Schedule)
    ensures |r| == |schedule|
    ensures forall k :: 0 <= k < |schedule| ==> r[k] == MirrorRound(schedule[k])
  {
    if schedule == [] then [] else [MirrorRound(schedule[0])] + MirrorAll(schedule[1..])
  }

  /** The single schedule followed by its mirrored copy. */
  function DoubleRoundRobin(single: Schedule): (r: Schedule)
    ensures |r| == 2 * |single|
    ensures r[..|single|] == single
    ensures forall k :: |single| <= k < |r| ==> r[k] == MirrorRound(single[k - |single|])
  {
    single + MirrorAll(single)
  }

  /** Mirroring twice restores the round. */
  lemma MirrorRoundInvolution(round: Round)
    ensures MirrorRound(MirrorRound(round)) == round
  {
  }

  /** Mirroring seats the same players, only at the other end of each table. */
  lemma {:induction false} MirrorRoundSamePlayers(round: Round)
    ensures multiset(Flatten(MirrorRound(round))) == multiset(Flatten(round))
  {
    if round != [] {
      var rest, first := round[1..], (round[0].1, round[0].0);
      var mirrored := MirrorRound(rest);
      assert MirrorRound(round) == [first] + mirrored;
      assert round == [round[0]] + rest;
      FlattenCons(first, mirrored);
      FlattenCons(round[0], rest);
      MirrorRoundSamePlayers(rest);
      assert multiset([first.0, first.1]) == multiset([round[0].0, round[0].1]);
    }
  }

  /** Table `i` of round `r` of the double schedule, read from the single one. */
  lemma DoubleAt(single: Schedule, r: nat, i: nat)
    requires r < 2 * |single|
    requires i < |single[if r < |single| then r else r - |single|]|
    ensures var d := DoubleRoundRobin(single);
      i < |d[r]| &&
      d[r][i] == if r < |single| then single[r][i]
                 else (single[r - |single|][i].1, single[r - |single|][i].0)
  {
    var d := DoubleRoundRobin(single);
    if r < |single| {
      assert d[r] == d[..|single|][r];
    } else {
      assert d[r] == d[|single| + (r - |single|)];
    }
  }

  /** Every round of the double schedule is a perfect matching of the roster. */
  lemma DoubleRoundIsPerfectMatching(players: seq<Player>, r: nat)
    requires |players| >= 2 && |players| % 2 == 0 && r < 2 * (|players| - 1)
    ensures multiset(Flatten(DoubleRoundRobin(RoundRobinPairings(players))[r])) == multiset(players)
  {
    var single := RoundRobinPairings(players);
    var d := DoubleRoundRobin(single);
    var m := |single|;
    if r < m {
      assert d[r] == d[..m][r];
      RoundIsPerfectMatching(players, r);
    } else {
      assert d[r] == d[m + (r - m)];
      RoundIsPerfectMatching(players, r - m);
      MirrorRoundSamePlayers(single[r - m]);
    }
  }

  /** Every (round, table) at which `p` is at home against `q`. */
  function HomeMeetings(schedule: Schedule, p: Player, q: Player): set<(nat, nat)> {
    set r: nat, i: nat | r < |schedule| && i < |schedule[r]| && schedule[r][i] == (p, q) :: (r, i)
  }

  lemma InHomeMeetings(schedule: Schedule, p: Player, q: Player, r: nat, i: nat)
    requires r < |schedule| && i < |schedule[r]| && schedule[r][i] == (p, q)
    ensures (r, i) in HomeMeetings(schedule, p, q)
  {
  }

  lemma FromHomeMeetings(schedule: Schedule, p: Player, q: Player, c: (nat, nat))
    requires c in HomeMeetings(schedule, p, q)
    ensures c.0 < |schedule| && c.1 < |schedule[c.0]| && schedule[c.0][c.1] == (p, q)
  {
  }

  /** Player `a` hosts player `b` somewhere in the double schedule. */
  lemma HostsSomewhere(players: seq<Player>, a: nat, b: nat) returns (r: nat, i: nat)
    requires |players| >= 2 && |players| % 2 == 0 && a < |players| && b < |players| && a != b
    ensures var d := DoubleRoundRobin(RoundRobinPairings(players));
      r < |d| && i < |d[r]| && d[r][i] == (players[a], players[b])
  {
    var single := RoundRobinPairings(players);
    RosterRivals(players, a, b);
    var c := Seat(|players| - 1, a, b);
    MeetWhereFacing(players, a, b, c.0, c.1);
    if single[c.0][c.1] == (players[a], players[b]) {
      r, i := c.0, c.1;
    } else {
      r, i := |players| - 1 + c.0, c.1;
    }
    DoubleAt(single, r, i);
  }

  /** The round of the single schedule that round `r` of the double one repeats. */
  function SingleRound(m: nat, r: nat): (s: nat)
    requires r < 2 * m
    ensures s < m && (s == r || s + m == r)
  {
    if r < m then r else r - m
  }

  /**
    Where `a` hosts `b` in the double schedule, it is at their seat of the
    single schedule, in the first half exactly when the single schedule
    already has `a` at home there.
  */
  lemma HostedAtSeat(players: seq<Player>, a: nat, b: nat, r: nat, i: nat)
    requires ValidRoster(players) && a < |players| && b < |players| && a != b
    requires Rivals(|players| - 1, a, b)
    requires var d := DoubleRoundRobin(RoundRobinPairings(players));
      r < |d| && i < |d[r]| && d[r][i] == (players[a], players[b])
    ensures var m, c := |players| - 1, Seat(|players| - 1, a, b);
      && (SingleRound(m, r), i) == c
      && ((r < m) <==> RoundRobinPairings(players)[c.0][c.1] == (players[a], players[b]))
  {
    var m := |players| - 1;
    var s := SingleRound(m, r);
    DistinctNames(players, a, b);
    DoubleAt(RoundRobinPairings(players), r, i);
    FacingWhereMeet(players, a, b, s, i);
    SeatedOnlyAt(m, a, b, s, i);
  }

  /** Player `a` hosts player `b` at no more than one table of the double schedule. */
  lemma HostsOnce(players: seq<Player>, a: nat, b: nat, r: nat, i: nat, r': nat, i': nat)
    requires ValidRoster(players) && a < |players| && b < |players| && a != b
    requires var d := DoubleRoundRobin(RoundRobinPairings(players));
      && r < |d| && i < |d[r]| && d[r][i] == (players[a], players[b])
      && r' < |d| && i' < |d[r']| && d[r'][i'] == (players[a], players[b])
    ensures r == r' && i == i'
  {
    RosterRivals(players, a, b);
    HostedAtSeat(players, a, b, r, i);
    HostedAtSeat(players, a, b, r', i');
  }

  /**
    In the double round-robin every player hosts every other player exactly
    once: the ordered pair (p, q) occupies exactly one table of one round.
  */
  lemma DoubleHostsEachPairOnce(players: seq<Player>, p: Player, q: Player)
    requires ValidRoster(players) && p in players && q in players && p != q
    ensures |HomeMeetings(DoubleRoundRobin(RoundRobinPairings(players)), p, q)| == 1
  {
    var d := DoubleRoundRobin(RoundRobinPairings(players));
    var a := IndexOf(players, p);
    var b := IndexOf(players, q);
    var r0, i0 := HostsSomewhere(players, a, b);
    InHomeMeetings(d, p, q, r0, i0);
    forall c | c in HomeMeetings(d, p, q)
      ensures c == (r0, i0)
    {
      FromHomeMeetings(d, p, q, c);
      HostsOnce(players, a, b, c.0, c.1, r0, i0);
    }
    assert HomeMeetings(d, p, q) == {(r0, i0)};
  }
}
