/** The storage device: writes that are pending until a sync, and what a crash may leave. */
module Device {
  import opened Bytes

  datatype Io = Write(offset: nat, data: Bytes) | SetLen(len: nat)

  /** The image with `data` written at `offset`; a gap before it reads as zeros. */
  function Patch(image: Bytes, offset: nat, data: Bytes): (r: Bytes)
    ensures data == [] ==> r == image
    ensures data != [] ==> |r| == if |image| <= offset + |data| then offset + |data| else |image|
    ensures forall i :: 0 <= i < |r| ==>
              r[i] == if offset <= i < offset + |data| then data[i - offset] else ByteAt(image, i)
  {
    if data == [] then image
    else
      seq(if |image| <= offset + |data| then offset + |data| else |image|,
          i requires 0 <= i => if offset <= i < offset + |data| then data[i - offset] else ByteAt(image, i))
  }

  function Resize(image: Bytes, len: nat): (r: Bytes)
    ensures |r| == len
    ensures forall i :: 0 <= i < len ==> r[i] == ByteAt(image, i)
  {
    if len <= |image| then image[..len] else image + Zeros(len - |image|)
  }

  function ByteAt(image: Bytes, i: nat): Byte {
    if i < |image| then image[i] else 0
  }

  function Do(image: Bytes, io: Io): Bytes {
    match io
    case Write(offset, data) => Patch(image, offset, data)
    case SetLen(len) => Resize(image, len)
  }

  function DoAll(image: Bytes, ios: seq<Io>): Bytes {
    if ios == [] then image else Do(DoAll(image, ios[..|ios| - 1]), ios[|ios| - 1])
  }

  datatype Disk = Disk(durable: Bytes, pending: seq<Io>)

  /** What reads of the file see. */
  function Image(disk: Disk): Bytes {
    DoAll(disk.durable, disk.pending)
  }

  /** The first `n` pending operations and the first `k` bytes of the next one. */
  function Cut(disk: Disk, n: nat, k: nat): Bytes
    requires n < |disk.pending|
  {
    var io := disk.pending[n];
    var last := if io.Write? && k <= |io.data| then [Write(io.offset, io.data[..k])] else [];
    DoAll(disk.durable, disk.pending[..n] + last)
  }

  /** Ordered crash: the pending operations reach the medium in order, cut at any byte. */
  ghost predicate CrashesTo(disk: Disk, image: Bytes) {
    || image == Image(disk)
    || exists n, k :: 0 <= n < |disk.pending| && 0 <= k && image == Cut(disk, n, k)
  }

  predicate Covers(io: Io, i: nat, b: Byte) {
    io.Write? && io.offset <= i < io.offset + |io.data| && io.data[i - io.offset] == b
  }

  /** The operation cuts the file at or before position `i`. */
  predicate Drops(io: Io, i: nat) {
    io.SetLen? && io.len <= i
  }

  /** The operation makes the file extend past position `i`. */
  predicate Extends(io: Io, i: nat) {
    i < if io.Write? then io.offset + |io.data| else io.len
  }

  /** A byte is the durable one, a pending one, or a zero from cutting and then growing the file. */
  ghost predicate MayHold(disk: Disk, i: nat, b: Byte) {
    || b == ByteAt(disk.durable, i)
    || (exists j :: 0 <= j < |disk.pending| && Covers(disk.pending[j], i, b))
    || (b == 0
        && exists j, k :: 0 <= j < k < |disk.pending| && Drops(disk.pending[j], i) && Extends(disk.pending[k], i))
  }

  function Shortest(len: nat, ios: seq<Io>): (r: nat)
    ensures r <= len
  {
    if ios == [] then len
    else
      var rest := Shortest(len, ios[..|ios| - 1]);
      var last := ios[|ios| - 1];
      if last.SetLen? && last.len < rest then last.len else rest
  }

  function Longest(len: nat, ios: seq<Io>): (r: nat)
    ensures r >= len
  {
    if ios == [] then len
    else
      var rest := Longest(len, ios[..|ios| - 1]);
      var last := ios[|ios| - 1];
      var end := if last.Write? then last.offset + |last.data| else last.len;
      if end > rest then end else rest
  }

  /** Lossy crash: every byte is the durable one or one of the pending ones, independently. */
  ghost predicate LosesTo(disk: Disk, image: Bytes) {
    && Shortest(|disk.durable|, disk.pending) <= |image| <= Longest(|disk.durable|, disk.pending)
    && forall i :: 0 <= i < |image| ==> MayHold(disk, i, image[i])
  }

  /** Nothing but zeros can appear at position `i` when the file grows past it. */
  ghost predicate Past(disk: Disk, i: nat) {
    |disk.durable| <= i || exists j :: 0 <= j < |disk.pending| && Drops(disk.pending[j], i)
  }

  ghost predicate Possible(disk: Disk, image: Bytes) {
    && Shortest(|disk.durable|, disk.pending) <= |image| <= Longest(|disk.durable|, disk.pending)
    && (forall i :: 0 <= i < |image| ==> MayHold(disk, i, image[i]))
    && (forall i :: |image| <= i ==> Past(disk, i))
  }

  lemma PossibleStep(disk: Disk, image: Bytes, io: Io)
    requires Possible(disk, image)
    ensures Possible(disk.(pending := disk.pending + [io]), Do(image, io))
  {
    var disk' := disk.(pending := disk.pending + [io]);
    var image', n := Do(image, io), |disk.pending|;
    assert disk'.pending[..n] == disk.pending;
    forall i | 0 <= i < |image'|
      ensures MayHold(disk', i, image'[i])
    {
      StepHolds(disk, image, io, i);
    }
    forall i | |image'| <= i
      ensures Past(disk', i)
    {
      if io.SetLen? {
        assert Drops(disk'.pending[n], i);
      } else {
        assert |image| <= i;
        assert Past(disk, i);
        PastWithMore(disk, io, i);
      }
    }
  }

  lemma StepHolds(disk: Disk, image: Bytes, io: Io, i: nat)
    requires Possible(disk, image) && i < |Do(image, io)|
    ensures MayHold(disk.(pending := disk.pending + [io]), i, Do(image, io)[i])
  {
    var disk', b := disk.(pending := disk.pending + [io]), Do(image, io)[i];
    if Covers(io, i, b) {
      assert Covers(disk'.pending[|disk.pending|], i, b);
    } else if i < |image| {
      HeldWithMore(disk, io, i, image[i]);
    } else {
      assert b == 0 && Past(disk, i);
      if |disk.durable| > i {
        var j :| 0 <= j < |disk.pending| && Drops(disk.pending[j], i);
        assert Drops(disk'.pending[j], i) && Extends(disk'.pending[|disk.pending|], i);
      }
    }
  }

  lemma HeldWithMore(disk: Disk, io: Io, i: nat, b: Byte)
    requires MayHold(disk, i, b)
    ensures MayHold(disk.(pending := disk.pending + [io]), i, b)
  {
    var disk' := disk.(pending := disk.pending + [io]);
    if j :| 0 <= j < |disk.pending| && Covers(disk.pending[j], i, b) {
      assert Covers(disk'.pending[j], i, b);
    } else if j, k :| 0 <= j < k < |disk.pending| && Drops(disk.pending[j], i) && Extends(disk.pending[k], i) {
      assert Drops(disk'.pending[j], i) && Extends(disk'.pending[k], i);
    }
  }

  lemma PastWithMore(disk: Disk, io: Io, i: nat)
    requires Past(disk, i)
    ensures Past(disk.(pending := disk.pending + [io]), i)
  {
    if j :| 0 <= j < |disk.pending| && Drops(disk.pending[j], i) {
      assert Drops((disk.pending + [io])[j], i);
    }
  }

  lemma {:induction false} ImageIsPossible(disk: Disk)
    ensures Possible(disk, Image(disk))
    decreases |disk.pending|
  {
    hide Possible;
    if disk.pending == [] {
      DurableIsPossible(disk);
    } else {
      var n := |disk.pending| - 1;
      var before := disk.(pending := disk.pending[..n]);
      ImageIsPossible(before);
      PossibleStep(before, Image(before), disk.pending[n]);
      assert disk.pending[..n] + [disk.pending[n]] == disk.pending;
    }
  }

  lemma DurableIsPossible(disk: Disk)
    requires disk.pending == []
    ensures Possible(disk, disk.durable)
  {
  }

  /** Operations that never happened, or happened in part, leave contents that are still possible. */
  lemma PossibleWithMore(disk: Disk, image: Bytes, part: Io, io: Io)
    requires Possible(disk.(pending := disk.pending + [part]), image)
    requires part == io || (io.Write? && part.Write? && part.offset == io.offset && part.data <= io.data)
    ensures Possible(disk.(pending := disk.pending + [io]), image)
  {
    var disk1, disk2 := disk.(pending := disk.pending + [part]), disk.(pending := disk.pending + [io]);
    var n := |disk.pending|;
    assert disk1.pending[..n] == disk.pending == disk2.pending[..n];
    forall i | 0 <= i < |image|
      ensures MayHold(disk2, i, image[i])
    {
      PartHolds(disk, part, io, i, image[i]);
    }
    forall i | |image| <= i
      ensures Past(disk2, i)
    {
      assert Past(disk1, i);
      if j :| 0 <= j <= n && Drops(disk1.pending[j], i) {
        assert Drops(disk2.pending[j], i);
      }
    }
  }

  lemma PartHolds(disk: Disk, part: Io, io: Io, i: nat, b: Byte)
    requires MayHold(disk.(pending := disk.pending + [part]), i, b)
    requires part == io || (io.Write? && part.Write? && part.offset == io.offset && part.data <= io.data)
    ensures MayHold(disk.(pending := disk.pending + [io]), i, b)
  {
    var disk1, disk2 := disk.(pending := disk.pending + [part]), disk.(pending := disk.pending + [io]);
    var n := |disk.pending|;
    if j :| 0 <= j <= n && Covers(disk1.pending[j], i, b) {
      assert Covers(disk2.pending[j], i, b);
    } else if j, k :| 0 <= j < k <= n && Drops(disk1.pending[j], i) && Extends(disk1.pending[k], i) {
      assert Drops(disk2.pending[j], i) && Extends(disk2.pending[k], i);
    }
  }

  lemma {:induction false} PossibleWithSuffix(disk: Disk, image: Bytes, more: seq<Io>)
    requires Possible(disk, image)
    ensures Possible(disk.(pending := disk.pending + more), image)
    decreases |more|
  {
    hide Possible;
    if more == [] {
      assert disk.pending + more == disk.pending;
    } else {
      SkipOne(disk, image, more[0]);
      PossibleWithSuffix(disk.(pending := disk.pending + [more[0]]), image, more[1..]);
      assert disk.pending + [more[0]] + more[1..] == disk.pending + more;
    }
  }

  lemma SkipOne(disk: Disk, image: Bytes, io: Io)
    requires Possible(disk, image)
    ensures Possible(disk.(pending := disk.pending + [io]), image)
  {
    var disk' := disk.(pending := disk.pending + [io]);
    assert disk'.pending[..|disk.pending|] == disk.pending;
    forall i | 0 <= i < |image|
      ensures MayHold(disk', i, image[i])
    {
      HeldWithMore(disk, io, i, image[i]);
    }
    forall i | |image| <= i
      ensures Past(disk', i)
    {
      PastWithMore(disk, io, i);
    }
  }

  /** Everything an ordered crash may leave, a lossy crash may leave too. */
  lemma OrderedIsLoss(disk: Disk, image: Bytes)
    requires CrashesTo(disk, image)
    ensures LosesTo(disk, image)
  {
    assert Possible(disk, image) by {
      hide Possible;
      if image == Image(disk) {
        ImageIsPossible(disk);
      } else {
        var n, k :| 0 <= n < |disk.pending| && 0 <= k && image == Cut(disk, n, k);
        CutIsPossible(disk, n, k);
      }
    }
  }

  lemma CutIsPossible(disk: Disk, n: nat, k: nat)
    requires n < |disk.pending|
    ensures Possible(disk, Cut(disk, n, k))
  {
    hide Possible;
    var io := disk.pending[n];
    var before := disk.(pending := disk.pending[..n]);
    var upTo := disk.(pending := disk.pending[..n] + [io]);
    if io.Write? && k <= |io.data| {
      var part := Write(io.offset, io.data[..k]);
      ImageIsPossible(disk.(pending := disk.pending[..n] + [part]));
      PossibleWithMore(before, Cut(disk, n, k), part, io);
    } else {
      assert disk.pending[..n] + [] == disk.pending[..n];
      ImageIsPossible(before);
      SkipOne(before, Cut(disk, n, k), io);
    }
    PossibleWithSuffix(upTo, Cut(disk, n, k), disk.pending[n + 1..]);
    assert disk.pending[..n] + [io] + disk.pending[n + 1..] == disk.pending;
  }

  /** The longest the file can be found after a crash. */
  function Reach(disk: Disk): nat {
    Longest(|disk.durable|, disk.pending)
  }

  function End(io: Io): nat {
    if io.Write? then io.offset + |io.data| else io.len
  }

  lemma ReachStep(disk: Disk, io: Io)
    ensures Reach(disk.(pending := disk.pending + [io])) == if End(io) > Reach(disk) then End(io) else Reach(disk)
  {
    assert (disk.pending + [io])[..|disk.pending|] == disk.pending;
  }

  lemma ReachImage(disk: Disk)
    ensures |Image(disk)| <= Reach(disk)
    ensures disk.pending == [] ==> Reach(disk) == |Image(disk)|
  {
    ImageIsPossible(disk);
  }

  lemma ReachSynced(before: Disk, after: Disk)
    requires after == Disk(Image(before), []) || after == before
    ensures Reach(after) <= Reach(before)
  {
    ReachImage(before);
  }
}
