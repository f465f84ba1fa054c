/** The file a handle works on: any operation may fail, and every instant is recorded. */
module Storage {
  import opened Bytes
  import opened Roots
  import opened Device
  import opened CrashSafety

  /** Some system call between the two clock readings was planned to fail. */
  ghost predicate Fault(plan: nat -> bool, from: nat, to: nat) {
    exists n :: from <= n < to && plan(n)
  }

  /** At most one system call between the two clock readings was planned to fail. */
  ghost predicate Alone(plan: nat -> bool, from: nat, to: nat) {
    forall i, j :: from <= i < j < to ==> !plan(i) || !plan(j)
  }

  /** Once the one failure is behind, nothing fails any more. */
  lemma AloneAfter(plan: nat -> bool, from: nat, mid: nat, to: nat)
    requires from <= mid <= to && Alone(plan, from, to) && Fault(plan, from, mid)
    ensures !Fault(plan, mid, to)
  {
    var i :| from <= i < mid && plan(i);
    forall j | mid <= j < to
      ensures !plan(j)
    {
      assert i < j;
    }
  }

  lemma FaultLater(plan: nat -> bool, from: nat, mid: nat, to: nat)
    requires from <= mid
    ensures Fault(plan, mid, to) ==> Fault(plan, from, to)
  {
  }

  /** A failure followed by more calls. */
  lemma FaultThen(plan: nat -> bool, from: nat, mid: nat, to: nat)
    requires from <= mid <= to && Fault(plan, from, mid)
    ensures Fault(plan, from, to)
    ensures Alone(plan, from, to) ==> !Fault(plan, mid, to)
  {
    if Alone(plan, from, to) {
      AloneAfter(plan, from, mid, to);
    }
  }

  class File {
    /** Which system calls fail, by number. */
    const plan: nat -> bool

    /** How many system calls were made. */
    var clock: nat

    var disk: Disk

    /** Every root written so far or being written. */
    var roots: set<Superblock>

    /** Every instant the device has passed through: where a crash could have struck. */
    var trail: seq<Moment>

    constructor (image: Bytes, roots: set<Superblock>, plan: nat -> bool, clock: nat)
      ensures disk == Disk(image, []) && this.roots == roots && Logged()
      ensures this.plan == plan && this.clock == clock
    {
      this.plan, this.clock := plan, clock;
      this.disk, this.roots, this.trail := Disk(image, []), roots, [Moment(Disk(image, []), roots)];
    }

    /** The present is the last recorded instant. */
    predicate Logged()
      reads this
    {
      trail != [] && trail[|trail| - 1] == Moment(disk, roots)
    }

    function Length(): nat
      reads this
    {
      |Image(disk)|
    }

    /** Writes the bytes; a write that fails has written any prefix of them. */
    method Put(offset: nat, data: Bytes) returns (ok: bool, ghost written: nat)
      modifies this
      ensures ok <==> !plan(old(clock))
      ensures written <= |data| && (ok ==> written == |data|)
      ensures disk == old(disk).(pending := old(disk).pending + [Write(offset, data[..written])])
      ensures roots == old(roots) && trail == old(trail) + [Moment(disk, roots)] && clock == old(clock) + 1
    {
      ok := !plan(clock);
      var reached: nat :| reached <= |data| && (ok ==> reached == |data|);
      written := reached;
      disk := disk.(pending := disk.pending + [Write(offset, data[..reached])]);
      trail, clock := trail + [Moment(disk, roots)], clock + 1;
    }

    /** Sets the length; a call that fails may have done so all the same. */
    method SetLength(len: nat) returns (ok: bool)
      modifies this
      ensures ok <==> !plan(old(clock))
      ensures disk == old(disk).(pending := old(disk).pending + [SetLen(len)]) || (!ok && disk == old(disk))
      ensures roots == old(roots) && trail == old(trail) + [Moment(disk, roots)] && clock == old(clock) + 1
    {
      ok := !plan(clock);
      var done: bool := *;
      if ok || done {
        disk := disk.(pending := disk.pending + [SetLen(len)]);
      }
      trail, clock := trail + [Moment(disk, roots)], clock + 1;
    }

    /** Makes every pending operation durable; a call that fails may have done so all the same. */
    method Sync() returns (ok: bool)
      modifies this
      ensures ok <==> !plan(old(clock))
      ensures disk == Disk(Image(old(disk)), []) || (!ok && disk == old(disk))
      ensures roots == old(roots) && trail == old(trail) + [Moment(disk, roots)] && clock == old(clock) + 1
    {
      ok := !plan(clock);
      var done: bool := *;
      if ok || done {
        disk := Disk(Image(disk), []);
      }
      trail, clock := trail + [Moment(disk, roots)], clock + 1;
    }

    /** Reads the file. */
    method Read() returns (r: Option<Bytes>)
      modifies this`clock
      ensures r == if plan(old(clock)) then None else Some(Image(disk))
      ensures clock == old(clock) + 1
    {
      r := if plan(clock) then None else Some(Image(disk));
      clock := clock + 1;
    }

    /** Maps a range of the file read-only. */
    method Map(offset: nat, size: nat) returns (r: Option<Bytes>)
      requires offset + size <= Length()
      modifies this`clock
      ensures r == if plan(old(clock)) then None else Some(Image(disk)[offset..offset + size])
      ensures clock == old(clock) + 1
    {
      r := if plan(clock) then None else Some(Image(disk)[offset..offset + size]);
      clock := clock + 1;
    }

    /** Asks the system for memory. */
    method Allocate() returns (ok: bool)
      modifies this`clock
      ensures ok <==> !plan(old(clock))
      ensures clock == old(clock) + 1
    {
      ok := !plan(clock);
      clock := clock + 1;
    }
  }
}
