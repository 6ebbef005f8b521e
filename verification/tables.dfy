/**
  The two data tables (`build_schedule_df`, `build_points_df`), as pandas
  frames reduced to their labels and cells. A frame's cells are kept column
  by column, the way the schedule is assembled from a dict of round columns.
*/
module Tables {
  import opened Wrappers
  import opened Decimal
  import opened Pairing
  import opened DoubleRound

  datatype Frame = Frame(index: seq<string>, columns: seq<string>, data: seq<seq<string>>)

  /** One cell list per column label, each as long as the row index. */
  predicate WellShaped(f: Frame) {
    && |f.data| == |f.columns|
    && forall c :: 0 <= c < |f.data| ==> |f.data[c]| == |f.index|
  }

  /**
    The two `ValueError`s pandas raises while the schedule frame is built:
    round columns of different lengths, or a row index whose length differs
    from the columns'.
  */
  datatype FrameError = UnequalColumns | IndexLengthMismatch

  /** The labels `prefix` followed by 1, 2, ..., `count` in decimal. */
  function Labels(prefix: string, count: nat): (r: seq<string>)
    ensures |r| == count
    ensures forall i :: 0 <= i < count ==> r[i] == prefix + NatToString(i + 1)
  {
    if count == 0 then [] else Labels(prefix, count - 1) + [prefix + NatToString(count)]
  }

  /** No two labels coincide, so no round column of the dict overwrites another. */
  lemma LabelsDistinct(prefix: string, count: nat, i: nat, j: nat)
    requires i < count && j < count && i != j
    ensures Labels(prefix, count)[i] != Labels(prefix, count)[j]
  {
    var l := Labels(prefix, count);
    if l[i] == l[j] {
      assert l[i][|prefix|..] == NatToString(i + 1);
      assert l[j][|prefix|..] == NatToString(j + 1);
      NatToStringInjective(i + 1, j + 1);
    }
  }

  /** The cell text of one table: the two names joined by " vs ". */
  function MatchLabel(pair: Pair): (s: string)
    ensures |s| == |pair.0| + 4 + |pair.1|
    ensures s[..|pair.0|] == pair.0
    ensures s[|pair.0|..|pair.0| + 4] == " vs "
    ensures s[|pair.0| + 4..] == pair.1
  {
    pair.0 + " vs " + pair.1
  }

  /** The cell text of every table of a round, in table order. */
  function MatchCells(round: Round): (r: seq<string>)
    ensures |r| == |round|
    ensures forall i :: 0 <= i < |round| ==> r[i] == MatchLabel(round[i])
  {
    if round == [] then [] else [MatchLabel(round[0])] + MatchCells(round[1..])
  }

  /** `cells` extended with empty strings up to length `tables`. */
  function PadTo(cells: seq<string>, width: nat): (r: seq<string>)
    ensures |r| == if |cells| < width then width else |cells|
    ensures r[..|cells|] == cells
    ensures forall i :: |cells| <= i < |r| ==> r[i] == ""
    decreases width - |cells|
  {
    if |cells| >= width then cells else PadTo(cells + [""], width)
  }

  /** The column of one round: its match labels in table order, padded with blanks. */
  function ScheduleColumn(round: Round, tables: nat): (col: seq<string>)
    ensures |col| == if |round| < tables then tables else |round|
    ensures forall i :: 0 <= i < |col| ==>
      col[i] == if i < |round| then MatchLabel(round[i]) else ""
  {
    var cells := MatchCells(round);
    var col := PadTo(cells, tables);
    assert forall i :: 0 <= i < |round| ==> col[i] == col[..|cells|][i];
    col
  }

  /** Length of the first column, the length pandas gives every column of an accepted dict. */
  function RowCount(cols: seq<seq<string>>): nat {
    if cols == [] then 0 else |cols[0]|
  }

  /**
    `build_schedule_df(players, rounds)`: one column per round, labelled
    "Round 1" onwards, one row per table, labelled "Table 1" onwards.
  */
  function BuildSchedule(players: seq<Player>, rounds: Schedule): (r: Result<Frame, FrameError>)
    ensures r.Success? <==>
      && (forall k :: 0 <= k < |rounds| ==> |rounds[k]| <= |players| / 2)
      && (|rounds| > 0 || |players| / 2 == 0)
    ensures r.Success? ==>
      && WellShaped(r.value)
      && r.value.index == Labels("Table ", |players| / 2)
      && r.value.columns == Labels("Round ", |rounds|)
      && forall k, i :: 0 <= k < |rounds| && 0 <= i < |players| / 2 ==>
           r.value.data[k][i] == if i < |rounds[k]| then MatchLabel(rounds[k][i]) else ""
  {
    var tables := |players| / 2;
    var cols := seq(|rounds|, k requires 0 <= k < |rounds| => ScheduleColumn(rounds[k], tables));
    if exists k :: 0 <= k < |cols| && |cols[k]| != RowCount(cols) then
      Failure(UnequalColumns)
    else if RowCount(cols) != tables then
      Failure(IndexLengthMismatch)
    else
      assert forall k :: 0 <= k < |rounds| ==> |cols[k]| == tables && cols[k] == ScheduleColumn(rounds[k], tables);
      Success(Frame(Labels("Table ", tables), Labels("Round ", |rounds|), cols))
  }

  /**
    `build_points_df(players, num_rounds)`: one row per round, one column per
    player in roster order, every cell blank.
  */
  function BuildPoints(players: seq<Player>, numRounds: nat): (f: Frame)
    ensures WellShaped(f)
    ensures f.index == Labels("Round ", numRounds) && f.columns == players
    ensures forall c, k :: 0 <= c < |players| && 0 <= k < numRounds ==> f.data[c][k] == ""
  {
    Frame(Labels("Round ", numRounds), players, seq(|players|, _ => seq(numRounds, _ => "")))
  }

  /** The rounds `main` schedules: single, or doubled when asked. */
  function ScheduledRounds(players: seq<Player>, doubleRound: bool): (rounds: Schedule)
    requires |players| > 0
    ensures |rounds| == (if doubleRound then 2 else 1) * (|players| - 1)
    ensures rounds[..|players| - 1] == RoundRobinPairings(players)
    ensures forall k :: |players| - 1 <= k < |rounds| ==>
      rounds[k] == MirrorRound(RoundRobinPairings(players)[k - (|players| - 1)])
  {
    var single := RoundRobinPairings(players);
    if doubleRound then DoubleRoundRobin(single) else single
  }

  /** Every scheduled round, mirrored or not, fills all n / 2 tables. */
  lemma ScheduledRoundsFull(players: seq<Player>, doubleRound: bool)
    requires |players| > 0
    ensures var rounds := ScheduledRounds(players, doubleRound);
      && |rounds| == (if doubleRound then 2 * (|players| - 1) else |players| - 1)
      && forall k :: 0 <= k < |rounds| ==> |rounds[k]| == |players| / 2
  {
    var single := RoundRobinPairings(players);
    var rounds := ScheduledRounds(players, doubleRound);
    forall k | 0 <= k < |rounds|
      ensures |rounds[k]| == |players| / 2
    {
      if doubleRound && k >= |single| {
        assert rounds[k] == rounds[|single| + (k - |single|)];
      } else if doubleRound {
        assert rounds[k] == rounds[..|single|][k];
      }
    }
  }

  /** `main` without the workbook: the rounds, then both frames. */
  function Tournament(players: seq<Player>, doubleRound: bool): (r: Result<(Frame, Frame), FrameError>)
    requires |players| > 0
  {
    var rounds := ScheduledRounds(players, doubleRound);
    match BuildSchedule(players, rounds)
    case Failure(e) => Failure(e)
    case Success(schedule) => Success((schedule, BuildPoints(players, |rounds|)))
  }

  /** A seated pair's players are among the round's players. */
  lemma {:induction false} PairInFlatten(round: Round, i: nat)
    requires i < |round|
    ensures round[i].0 in Flatten(round) && round[i].1 in Flatten(round)
    decreases i
  {
    FlattenCons(round[0], round[1..]);
    assert round == [round[0]] + round[1..];
    if i > 0 {
      PairInFlatten(round[1..], i - 1);
    }
  }

  /**
    For any non-empty roster the pipeline never hits a pandas error; the
    schedule has n / 2 table rows and one column per round, the points table
    one row per round, and they share the round labels.
  */
  lemma TournamentNeverFails(players: seq<Player>, doubleRound: bool)
    requires |players| > 0
    ensures Tournament(players, doubleRound).Success?
    ensures var (schedule, points) := Tournament(players, doubleRound).value;
      var rounds := if doubleRound then 2 * (|players| - 1) else |players| - 1;
      && |schedule.index| == |players| / 2
      && |schedule.columns| == rounds
      && |points.index| == rounds
      && points.index == schedule.columns
  {
    ScheduledRoundsFull(players, doubleRound);
  }

  /** With an even roster both players of every table come from the roster and differ. */
  lemma SeatedPlayersFromRoster(players: seq<Player>, k: nat, i: nat)
    requires ValidRoster(players) && k < |players| - 1 && i < |players| / 2
    ensures var pair := RoundRobinPairings(players)[k][i];
      pair.0 in players && pair.1 in players && pair.0 != pair.1
  {
    var round := RoundRobinPairings(players)[k];
    RoundIsPerfectMatching(players, k);
    PairInFlatten(round, i);
    NoSelfPairs(players, k, i);
    assert round[i].0 in multiset(Flatten(round)) && round[i].1 in multiset(Flatten(round));
  }

  /**
    With an even roster every schedule cell names two different players of
    the roster: "<home> vs <away>", never a blank.
  */
  lemma ScheduleCellsNamePlayers(players: seq<Player>, doubleRound: bool, k: nat, i: nat)
    requires ValidRoster(players) && i < |players| / 2
    requires k < (if doubleRound then 2 else 1) * (|players| - 1)
    ensures Tournament(players, doubleRound).Success?
    ensures var schedule := Tournament(players, doubleRound).value.0;
      exists p, q :: p in players && q in players && p != q && schedule.data[k][i] == p + " vs " + q
  {
    var n := |players|;
    var s := if k < n - 1 then k else k - (n - 1);
    SeatedPlayersFromRoster(players, s, i);
    ScheduledPair(players, doubleRound, k, i);
    CellOfScheduledPair(players, doubleRound, k, i);
  }

  /** Table `i` of scheduled round `k` is a table of the single schedule, swapped in the second half. */
  lemma ScheduledPair(players: seq<Player>, doubleRound: bool, k: nat, i: nat)
    requires |players| >= 2 && i < |players| / 2
    requires k < (if doubleRound then 2 else 1) * (|players| - 1)
    ensures var single, n := RoundRobinPairings(players), |players|;
      var rounds := ScheduledRounds(players, doubleRound);
      && i < |rounds[k]|
      && rounds[k][i] == if k < n - 1 then single[k][i] else (single[k - (n - 1)][i].1, single[k - (n - 1)][i].0)
  {
    var single, rounds := RoundRobinPairings(players), ScheduledRounds(players, doubleRound);
    if k < |players| - 1 {
      assert rounds[k] == rounds[..|players| - 1][k];
    }
  }

  /** The schedule frame's cell for table `i` of round `k` names that table's pair. */
  lemma CellOfScheduledPair(players: seq<Player>, doubleRound: bool, k: nat, i: nat)
    requires |players| > 0 && i < |players| / 2
    requires k < (if doubleRound then 2 else 1) * (|players| - 1)
    ensures Tournament(players, doubleRound).Success?
    ensures var rounds := ScheduledRounds(players, doubleRound);
      i < |rounds[k]| &&
      Tournament(players, doubleRound).value.0.data[k][i] == rounds[k][i].0 + " vs " + rounds[k][i].1
  {
    TournamentNeverFails(players, doubleRound);
    ScheduledRoundsFull(players, doubleRound);
  }
}
