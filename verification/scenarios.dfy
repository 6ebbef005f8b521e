/** Worked examples of the whole schedule for small rosters. */
module Scenarios {
  import opened Rotation
  import opened Pairing
  import opened DoubleRound

  /** Four players: three rounds of two tables, player A always at table 1. */
  lemma FourPlayers()
    ensures RoundRobinPairings(["A", "B", "C", "D"]) ==
      [[("A", "D"), ("B", "C")], [("A", "C"), ("D", "B")], [("A", "B"), ("C", "D")]]
  {
    var others := ["B", "C", "D"];
    var once := RotateRight(others);
    var twice := RotateRight(once);
    assert once == ["D", "B", "C"];
    assert twice == ["C", "D", "B"];
    assert ["A", "B", "C", "D"][1..] == others;
    assert RoundRobinPairings(["A", "B", "C", "D"]) == Rounds("A", others, 3);
    assert ["A"] + others == ["A", "B", "C", "D"];
    assert ["A"] + once == ["A", "D", "B", "C"];
    assert ["A"] + twice == ["A", "C", "D", "B"];
    assert Rounds("A", others, 3) == [PairUp(["A"] + others)] + Rounds("A", once, 2);
    assert Rounds("A", once, 2) == [PairUp(["A"] + once)] + Rounds("A", twice, 1);
    assert Rounds("A", twice, 1) == [PairUp(["A"] + twice)];
    assert PairUp(["A", "B", "C", "D"]) == [("A", "D"), ("B", "C")];
    assert PairUp(["A", "D", "B", "C"]) == [("A", "C"), ("D", "B")];
    assert PairUp(["A", "C", "D", "B"]) == [("A", "B"), ("C", "D")];
  }

  /**
    Six players, double round-robin: ten rounds of three tables, and round 6
    is round 1 with home and away swapped at every table.
  */
  lemma SixPlayersDouble()
    ensures var d := DoubleRoundRobin(RoundRobinPairings(["A", "B", "C", "D", "E", "F"]));
      && |d| == 10
      && (forall k :: 0 <= k < 10 ==> |d[k]| == 3)
      && d[0] == [("A", "F"), ("B", "E"), ("C", "D")]
      && d[5] == [("F", "A"), ("E", "B"), ("D", "C")]
  {
    var players := ["A", "B", "C", "D", "E", "F"];
    var single := RoundRobinPairings(players);
    assert players[1..] == ["B", "C", "D", "E", "F"];
    assert single[0] == PairUp(players);
    assert PairUp(players) == [("A", "F"), ("B", "E"), ("C", "D")];
    var d := DoubleRoundRobin(single);
    assert d[0] == d[..5][0];
    assert d[5] == MirrorRound(single[0]);
  }
}
