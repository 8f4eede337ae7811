/**
 * The auto-backup counter of src/App.jsx: every board change counts while
 * backups are enabled and the host bridge is present, and every third
 * counted change resets the counter and asks the host to save a backup.
 */
module AutoBackup {

  class ChangeCounter {
    /** `changeCounterRef.current`. */
    var count: int
    /** Changes counted so far, and backups requested for them. */
    ghost var counted: nat
    ghost var saves: nat

    ghost predicate Valid()
      reads this
    {
      0 <= count < 3 && counted == 3 * saves + count
    }

    constructor ()
      ensures Valid() && count == 0 && counted == 0 && saves == 0
    {
      count, counted, saves := 0, 0, 0;
    }

    /**
     * The effect run after a board change: returns whether a backup is
     * requested. Disabled backups or a missing bridge leave the counter alone.
     */
    method OnBoardChange(backupsEnabled: bool, bridge: bool) returns (save: bool)
      requires Valid()
      modifies this
      ensures Valid()
      ensures !(backupsEnabled && bridge) ==>
        !save && count == old(count) && counted == old(counted) && saves == old(saves)
      ensures backupsEnabled && bridge ==> counted == old(counted) + 1
      ensures save <==> backupsEnabled && bridge && old(count) == 2
      ensures saves == old(saves) + (if save then 1 else 0)
    {
      save := false;
      if !backupsEnabled || !bridge {
        return;
      }
      count := count + 1;
      counted := counted + 1;
      if count >= 3 {
        count := 0;
        saves := saves + 1;
        save := true;
      }
    }
  }

  /** Three counted changes from a fresh counter request exactly one backup, on the third. */
  method ThirdChangeSaves() returns (first: bool, second: bool, third: bool)
    ensures !first && !second && third
  {
    var c := new ChangeCounter();
    first := c.OnBoardChange(true, true);
    second := c.OnBoardChange(true, true);
    third := c.OnBoardChange(true, true);
  }
}
