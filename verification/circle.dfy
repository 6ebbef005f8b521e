/**
  The circle method over player indices. With `n` players, `m == n - 1` of
  them rotate while player 0 stays at lineup slot 0. In round `r` (counting
  from 0) slot `k >= 1` holds player `1 + (k - 1 - r) mod m`, and the round
  pairs slot `i` with slot `m - i` for every `i < n / 2`.
*/
module CircleMethod {
  import opened Rotation

  /**
    Player index at lineup slot `k` in round `r`: `1 + (k - 1 - r) mod m`
    for `k >= 1` (see PosMod), written without the remainder since both
    operands lie in [0, m).
  */
  function Pos(m: nat, r: nat, k: nat): (p: nat)
    requires r < m && k <= m
    ensures p <= m
  {
    if k == 0 then 0 else if r <= k - 1 then k - r else k - r + m
  }

  /** Lineup slot of player `p` in round `r`: `1 + (p - 1 + r) mod m` for `p >= 1`. */
  function Slot(m: nat, r: nat, p: nat): (k: nat)
    requires r < m && p <= m
    ensures k <= m
  {
    if p == 0 then 0 else if p - 1 + r < m then p + r else p + r - m
  }

  /** Pos is the rotation of the non-fixed players by `r` places, modulo `m`. */
  lemma PosMod(m: nat, r: nat, k: nat)
    requires r < m && 0 < k <= m
    ensures Pos(m, r, k) == 1 + (k - 1 - r) % m
  {
    ModSmall(k - 1 - r, m);
  }

  /** Slot undoes Pos: every slot holds exactly one player. */
  lemma SlotOfPos(m: nat, r: nat, k: nat)
    requires r < m && k <= m
    ensures Slot(m, r, Pos(m, r, k)) == k
  {
  }

  /** Pos undoes Slot: every player sits in exactly one slot. */
  lemma PosOfSlot(m: nat, r: nat, p: nat)
    requires r < m && p <= m
    ensures Pos(m, r, Slot(m, r, p)) == p
  {
  }

  /** Players `a` and `b` face each other in round `r`: their slots are mirror images. */
  predicate MeetIn(m: nat, r: nat, a: nat, b: nat)
    requires r < m && a <= m && b <= m
  {
    Slot(m, r, a) + Slot(m, r, b) == m
  }

  /** Player 0 meets `b` exactly when `b` has rotated into the last slot. */
  lemma MeetFixed(m: nat, b: nat)
    requires 0 < b <= m
    ensures MeetIn(m, m - b, 0, b) && MeetIn(m, m - b, b, 0)
    ensures forall r: nat :: r < m && (MeetIn(m, r, 0, b) || MeetIn(m, r, b, 0)) ==> r == m - b
  {
  }

  /**
    Two rotating players meet when their slots sum to `m`; `s` is the sum
    of their indices among the rotating players.
  */
  function RotatingMeetingRound(m: nat, s: nat): nat
    requires m % 2 == 1 && s <= 2 * m - 2
  {
    if s % 2 == 1 && s <= m - 2 then (m - 2 - s) / 2
    else if s % 2 == 0 then m - 1 - s / 2
    else (3 * m - 2 - s) / 2
  }

  lemma MeetRotating(m: nat, a: nat, b: nat)
    requires m % 2 == 1 && 0 < a <= m && 0 < b <= m && a != b
    ensures var r := RotatingMeetingRound(m, a - 1 + b - 1); r < m && MeetIn(m, r, a, b)
  {
  }

  lemma MeetRotatingOnce(m: nat, a: nat, b: nat, r1: nat, r2: nat)
    requires m % 2 == 1 && 0 < a <= m && 0 < b <= m && a != b
    requires r1 < m && r2 < m && MeetIn(m, r1, a, b) && MeetIn(m, r2, a, b)
    ensures r1 == r2
  {
  }

  lemma MeetRotatingAll(m: nat, a: nat, b: nat)
    requires m % 2 == 1 && 0 < a <= m && 0 < b <= m && a != b
    ensures var r := RotatingMeetingRound(m, a - 1 + b - 1);
      && r < m && MeetIn(m, r, a, b)
      && forall r': nat :: r' < m && MeetIn(m, r', a, b) ==> r' == r
  {
    var r := RotatingMeetingRound(m, a - 1 + b - 1);
    MeetRotating(m, a, b);
    forall r': nat | r' < m && MeetIn(m, r', a, b)
      ensures r' == r
    {
      MeetRotatingOnce(m, a, b, r', r);
    }
  }

  /**
    The round in which two distinct players meet. It exists and is unique
    because `m` is odd, so 2 has an inverse modulo `m`.
  */
  function MeetingRound(m: nat, a: nat, b: nat): (r: nat)
    requires m % 2 == 1 && a <= m && b <= m && a != b
    ensures r < m && MeetIn(m, r, a, b)
    ensures forall r': nat :: r' < m && MeetIn(m, r', a, b) ==> r' == r
  {
    if a == 0 then MeetFixed(m, b); m - b
    else if b == 0 then MeetFixed(m, a); m - a
    else MeetRotatingAll(m, a, b); RotatingMeetingRound(m, a - 1 + b - 1)
  }

  /** The table at which players `a` and `b` meet in their meeting round. */
  function MeetingTable(m: nat, a: nat, b: nat): (i: nat)
    requires m % 2 == 1 && a <= m && b <= m && a != b
    ensures 2 * i < m
  {
    var r := MeetingRound(m, a, b);
    PosOfSlot(m, r, a);
    PosOfSlot(m, r, b);
    var sa, sb := Slot(m, r, a), Slot(m, r, b);
    if sa < sb then sa else sb
  }

  /** Players `a` and `b` sit in the mirrored slots `i` and `m - i` of round `r`. */
  predicate Facing(m: nat, r: nat, i: nat, a: nat, b: nat)
    requires r < m && 2 * i < m
  {
    || (Pos(m, r, i) == a && Pos(m, r, m - i) == b)
    || (Pos(m, r, i) == b && Pos(m, r, m - i) == a)
  }

  /** Two distinct player indices of a circle with an odd number `m` of rounds. */
  predicate Rivals(m: nat, a: nat, b: nat) {
    m % 2 == 1 && a <= m && b <= m && a != b
  }

  /** Players `a` and `b` face each other at table `i` of round `r`. */
  predicate Seated(m: nat, r: nat, i: nat, a: nat, b: nat) {
    r < m && 2 * i < m && Facing(m, r, i, a, b)
  }

  /** The meeting table seats the two players in mirrored slots of the meeting round. */
  lemma AtMeetingTable(m: nat, a: nat, b: nat)
    requires m % 2 == 1 && a <= m && b <= m && a != b
    ensures Facing(m, MeetingRound(m, a, b), MeetingTable(m, a, b), a, b)
  {
    var r := MeetingRound(m, a, b);
    PosOfSlot(m, r, a);
    PosOfSlot(m, r, b);
  }

  /** Two players seated in mirrored slots are at their meeting round and table. */
  lemma OnlyAtMeetingTable(m: nat, r: nat, i: nat, a: nat, b: nat)
    requires m % 2 == 1 && r < m && 2 * i < m && a <= m && b <= m && a != b
    requires Facing(m, r, i, a, b)
    ensures r == MeetingRound(m, a, b) && i == MeetingTable(m, a, b)
  {
    SlotOfPos(m, r, i);
    SlotOfPos(m, r, m - i);
    assert MeetIn(m, r, a, b);
  }

  /** The (round, table) at which `a` and `b` face each other. */
  function Seat(m: nat, a: nat, b: nat): (c: (nat, nat))
    requires Rivals(m, a, b)
    ensures Seated(m, c.0, c.1, a, b)
  {
    AtMeetingTable(m, a, b);
    (MeetingRound(m, a, b), MeetingTable(m, a, b))
  }

  /** Wherever `a` and `b` face each other, it is at their seat. */
  lemma SeatedOnlyAt(m: nat, a: nat, b: nat, r: nat, i: nat)
    requires Rivals(m, a, b) && Seated(m, r, i, a, b)
    ensures (r, i) == Seat(m, a, b)
  {
    OnlyAtMeetingTable(m, r, i, a, b);
  }
}
