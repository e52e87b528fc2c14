/** Powerup unlocking: every two removed rows (`addPRow`) the round-robin
    tracker of `checkPowerup` moves on and makes the next of the three
    powerups available. */
module Powerups {

  /** Rows needed per powerup (`rowsforpowerup`). */
  const RowsPerPowerup: nat := 2

  /** The powerup globals: row progress `prows`, the round-robin `ptracker`
      and the three availability flags. */
  datatype PowerupState = PowerupState(prows: nat, tracker: nat, one: bool, two: bool, three: bool)

  /** The powerup state `reset` restores. */
  const NoPowerups := PowerupState(0, 0, false, false, false)

  /** The values the globals keep between calls: fewer than two rows of
      progress, and a tracker that has just handed out slot 0 (none yet), 1 or 2. */
  predicate Valid(p: PowerupState)
  {
    p.prows < RowsPerPowerup && p.tracker < 3
  }

  /** `checkPowerup`: once two rows have been made the tracker advances and
      unlocks its slot; after slot 3 it starts over at 0. */
  function CheckPowerup(p: PowerupState): (r: PowerupState)
    ensures p.prows <= RowsPerPowerup && p.tracker < 3 ==> Valid(r)
    ensures p.prows != RowsPerPowerup ==> r == p
    ensures p.prows == RowsPerPowerup && p.tracker < 3 ==> r.prows == 0 && r.tracker == (p.tracker + 1) % 3
    ensures p.tracker < 3 ==> r.one == (p.one || (p.prows == RowsPerPowerup && p.tracker == 0))
    ensures p.tracker < 3 ==> r.two == (p.two || (p.prows == RowsPerPowerup && p.tracker == 1))
    ensures p.tracker < 3 ==> r.three == (p.three || (p.prows == RowsPerPowerup && p.tracker == 2))
  {
    if p.prows != RowsPerPowerup then p
    else
      var t := p.tracker + 1;
      if t == 1 then p.(prows := 0, tracker := t, one := true)
      else if t == 2 then p.(prows := 0, tracker := t, two := true)
      else if t == 3 then p.(prows := 0, tracker := 0, three := true)
      else p.(prows := 0, tracker := t)
  }

  /** `addPRow`: one more removed row, then `checkPowerup`. */
  function AddPRow(p: PowerupState): (r: PowerupState)
    ensures Valid(p) ==> Valid(r)
  {
    CheckPowerup(p.(prows := p.prows + 1))
  }

  /** `addPRow` once per removed row. */
  function AddPRows(p: PowerupState, n: nat): (r: PowerupState)
    ensures Valid(p) ==> Valid(r)
    decreases n
  {
    if n == 0 then p else AddPRows(AddPRow(p), n - 1)
  }

  /** Progress through the round robin, counted in rows: two per slot, six per lap. */
  function Progress(p: PowerupState): nat
  {
    RowsPerPowerup * p.tracker + p.prows
  }

  /** n removed rows move the round robin n rows further round its six-row lap. */
  lemma {:induction false} AddPRowsProgress(p: PowerupState, n: nat)
    requires Valid(p)
    ensures Progress(AddPRows(p, n)) == (Progress(p) + n) % 6
    decreases n
  {
    if n > 0 {
      AddPRowsProgress(AddPRow(p), n - 1);
    }
  }

  /** An available powerup stays available however many rows are removed:
      unlocking only ever sets a flag. */
  lemma {:induction false} AddPRowsKeeps(p: PowerupState, n: nat)
    requires Valid(p)
    ensures p.one ==> AddPRows(p, n).one
    ensures p.two ==> AddPRows(p, n).two
    ensures p.three ==> AddPRows(p, n).three
    decreases n
  {
    if n > 0 {
      AddPRowsKeeps(AddPRow(p), n - 1);
    }
  }

  /** From a fresh game, rows 2, 4 and 6 unlock powerups one, two and three
      in turn, and the tracker is back at the start after the sixth. */
  lemma RoundRobin()
    ensures AddPRows(NoPowerups, 1) == PowerupState(1, 0, false, false, false)
    ensures AddPRows(NoPowerups, 2) == PowerupState(0, 1, true, false, false)
    ensures AddPRows(NoPowerups, 4) == PowerupState(0, 2, true, true, false)
    ensures AddPRows(NoPowerups, 6) == PowerupState(0, 0, true, true, true)
  {
    var p2 := AddPRows(NoPowerups, 2);
    assert p2 == PowerupState(0, 1, true, false, false);
    var p4 := AddPRows(p2, 2);
    AddPRowsSplit(NoPowerups, 2, 2);
    assert p4 == PowerupState(0, 2, true, true, false);
    AddPRowsSplit(NoPowerups, 4, 2);
  }

  /** m rows and then n more are m + n rows. */
  lemma {:induction false} AddPRowsSplit(p: PowerupState, m: nat, n: nat)
    ensures AddPRows(AddPRows(p, m), n) == AddPRows(p, m + n)
    decreases m
  {
    if m > 0 {
      AddPRowsSplit(AddPRow(p), m - 1, n);
    }
  }
}
