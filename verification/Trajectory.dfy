/** The trajectory object shared by the receiver and the transmitter (Trajectory/Trajectory.h). */
module Trajectories {
  import opened Bytes
  import opened Messages
  import opened Protocol

  class Trajectory {
    var locked: bool
    var initDate: RTCDateTime
    var nbPoint: int
    var currentPoint: int
    const table: array<byte>

    ghost predicate Valid() {
      table.Length == TABLE_BYTES
    }

    ghost function View(): Traj
      requires Valid()
      reads this, table
    {
      Traj(locked, initDate, nbPoint, currentPoint, table[..])
    }

    /** The object before its initialisation. */
    constructor ()
      ensures Valid() && fresh(table)
    {
      table := new byte[TABLE_BYTES];
    }

    method Init(now: RTCDateTime)
      requires Valid()
      modifies this, table
      ensures View() == old(View()).Init(now)
    {
      nbPoint := -2;
      currentPoint := -1;
      locked := false;
      initDate := now;
      for i := 0 to MAX_TRAJ_LENGTH
        invariant forall j | 0 <= j < i :: table[j] == 0
        invariant forall j | i <= j < table.Length :: table[j] == old(table[j])
        invariant nbPoint == -2 && currentPoint == -1 && !locked && initDate == now
      {
        table[i] := 0;
      }
      assert table[..] == ZeroBytes(MAX_TRAJ_LENGTH) + old(table[..])[MAX_TRAJ_LENGTH..];
    }

    method SetLength(length: int)
      requires Valid()
      modifies this
      ensures View() == old(View()).SetLength(length)
    {
      nbPoint := length;
      currentPoint := 0;
    }

    method AddPoint(point: Args)
      requires Valid() && View().InTable()
      modifies this, table
      ensures View() == old(View()).AddPoint(point)
    {
      var row := 12 * currentPoint;
      for i := 0 to ANTENNA_MESSAGE_LENGTH
        invariant forall j | 0 <= j < i :: table[row + j] == point[j]
        invariant forall j | 0 <= j < row || row + i <= j < table.Length :: table[j] == old(table[j])
        invariant nbPoint == old(nbPoint) && currentPoint == old(currentPoint)
        invariant locked == old(locked) && initDate == old(initDate)
      {
        table[row + i] := point[i];
      }
      currentPoint := currentPoint + 1;
      assert table[..] == old(table[..])[..row] + point + old(table[..])[row + 12..];
    }

    method CheckCorrectLength() returns (correct: bool)
      requires Valid()
      ensures correct <==> View().Complete()
    {
      correct := currentPoint == nbPoint;
    }

    method GetDate() returns (date: RTCDateTime)
      ensures date == initDate
    {
      date := initDate;
    }

    method SetDate(date: RTCDateTime)
      requires Valid()
      modifies this
      ensures View() == old(View()).(initDate := date)
    {
      initDate := date;
    }

    method GetNextTarget(target: array<byte>)
      requires Valid() && View().InTable()
      requires target.Length == ANTENNA_MESSAGE_LENGTH && target != table
      modifies this, target
      ensures target[..] == old(View()).Target()
      ensures View() == old(View()).Advance()
    {
      var row := 12 * currentPoint;
      for i := 0 to ANTENNA_MESSAGE_LENGTH
        invariant forall j | 0 <= j < i :: target[j] == table[row + j]
        invariant View() == old(View())
      {
        target[i] := table[row + i];
      }
      currentPoint := currentPoint + 1;
      assert target[..] == table[..][row..row + 12];
    }

    method PrepareTargeting(target: array<byte>)
      requires Valid() && target.Length == ANTENNA_MESSAGE_LENGTH && target != table
      modifies this, target
      ensures target[..] == old(View()).Point(0)
      ensures View() == old(View()).(currentPoint := 1)
    {
      currentPoint := 0;
      GetNextTarget(target);
    }
  }
}
