/** Lazy verification of Base blocks, and point lookup that verifies what it touches. */
module Verifier {
  import opened Bytes
  import opened Segment
  import opened Lookup
  import opened Layout
  import opened Records

  /** Block `i` of the mapping has its stored checksum. */
  predicate Passes(d: Digests, m: Bytes, dataSize: nat, i: nat) {
    && dataSize <= |m| && i < BlockCount(dataSize) && SegmentSize(dataSize) == |m|
    && d.crc(Block(m[..dataSize], i)) == StoredChecksum(m, dataSize, i)
  }

  /** How many blocks have not been marked. */
  function Unset(bits: seq<bool>): nat {
    if bits == [] then 0 else Unset(bits[..|bits| - 1]) + if bits[|bits| - 1] then 0 else 1
  }

  lemma {:induction false} UnsetAll(bits: seq<bool>)
    ensures Unset(bits) == 0 <==> forall i :: 0 <= i < |bits| ==> bits[i]
  {
    if bits != [] {
      UnsetAll(bits[..|bits| - 1]);
    }
  }

  lemma {:induction false} UnsetOne(bits: seq<bool>, i: nat)
    requires i < |bits| && !bits[i]
    ensures Unset(bits) == Unset(bits[i := true]) + 1
  {
    var n := |bits| - 1;
    if i < n {
      UnsetOne(bits[..n], i);
      assert bits[i := true][..n] == bits[..n][i := true];
    } else {
      assert bits[i := true][..n] == bits[..n];
    }
  }

  lemma {:induction false} UnsetAtMost(bits: seq<bool>)
    ensures Unset(bits) <= |bits|
  {
    if bits != [] {
      UnsetAtMost(bits[..|bits| - 1]);
    }
  }

  /** The blocks a byte range touches. */
  ghost predicate RangePasses(d: Digests, m: Bytes, dataSize: nat, lo: nat, hi: nat) {
    && lo <= hi <= dataSize
    && forall k :: lo / BLOCK_SIZE <= k <= (hi - 1) / BLOCK_SIZE && lo < hi ==> Passes(d, m, dataSize, k)
  }

  /** Only blocks that pass are marked, the countdown has not overtaken the marks, and the flag means all. */
  ghost predicate MarksHold(d: Digests, m: Bytes, dataSize: nat, verified: seq<bool>, remaining: nat, fully: bool) {
    && SegmentSize(dataSize) == |m| && |verified| == BlockCount(dataSize)
    && (forall i :: 0 <= i < |verified| && verified[i] ==> Passes(d, m, dataSize, i))
    && Unset(verified) <= remaining
    && (fully ==> forall i :: 0 <= i < |verified| ==> verified[i])
  }

  /** No mark is taken back, and the flag stays up. */
  ghost predicate OnlyAdds(verified: seq<bool>, fully: bool, verified': seq<bool>, fully': bool) {
    && |verified'| == |verified| && (fully ==> fully')
    && forall i :: 0 <= i < |verified| && verified[i] ==> verified'[i]
  }

  /** The shared marks of one Base. Other readers may add marks and decrements at any time. */
  class SegmentVerifier {
    const dataSize: nat
    var verified: seq<bool>
    var remaining: nat
    var fully: bool

    ghost predicate Valid(d: Digests, m: Bytes)
      reads this
    {
      MarksHold(d, m, dataSize, verified, remaining, fully)
    }

    /** A Base that was verified in full, or built by this process, starts with every mark set. */
    constructor (d: Digests, m: Bytes, dataSize: nat, fullyVerified: bool)
      requires SegmentSize(dataSize) == |m|
      requires fullyVerified ==> BlocksMatch(d, m, dataSize)
      ensures this.dataSize == dataSize && fully == fullyVerified && Valid(d, m)
    {
      var blocks := BlockCount(dataSize);
      this.dataSize := dataSize;
      verified := seq(blocks, i => fullyVerified);
      remaining := if fullyVerified then 0 else blocks;
      fully := fullyVerified;
      new;
      UnsetAll(verified);
      UnsetAtMost(verified);
    }

    /** What other readers may do between two steps of this one. */
    method Interfere(d: Digests, m: Bytes)
      requires Valid(d, m)
      modifies this
      ensures MarksHold(d, m, dataSize, verified, remaining, fully)
      ensures OnlyAdds(old(verified), old(fully), verified, fully)
    {
      var bits := verified;
      for i := 0 to |bits|
        invariant |bits| == |verified|
        invariant forall j :: 0 <= j < |bits| && (verified[j] || bits[j]) ==> Passes(d, m, dataSize, j)
        invariant forall j :: 0 <= j < |bits| && verified[j] ==> bits[j]
      {
        var mark: bool := *;
        if mark && Passes(d, m, dataSize, i) {
          bits := bits[i := true];
        }
      }
      verified := bits;
      var left: nat :| Unset(bits) <= left;
      UnsetAll(bits);
      remaining := left;
      var flag: bool := *;
      fully := fully || (flag && Unset(bits) == 0);
    }

    /** Checks every block the range touches that is not marked yet, while other readers do the same. */
    method VerifyRange(d: Digests, m: Bytes, start: nat, end: nat) returns (ok: bool)
      requires Valid(d, m)
      modifies this
      ensures Valid(d, m) && (old(fully) ==> fully)
      ensures ok ==> RangePasses(d, m, dataSize, start, end) || BlocksMatch(d, m, dataSize)
      ensures RangePasses(d, m, dataSize, start, end) ==> ok
      ensures ok && start < end <= dataSize ==>
                forall k :: start / BLOCK_SIZE <= k <= (end - 1) / BLOCK_SIZE ==> k < |verified| && verified[k]
    {
      hide Passes, BlockCount, BlocksMatch, SegmentSize;
      if start < end <= dataSize {
        LastBlock(start, end, dataSize);
      }
      if fully {
        AllPass(d, m, dataSize);
        return true;
      }
      if start > end || end > dataSize {
        return false;
      }
      if start == end {
        return true;
      }
      var first, last := start / BLOCK_SIZE, (end - 1) / BLOCK_SIZE;
      for block := first to last + 1
        invariant Valid(d, m) && (old(fully) ==> fully)
        invariant forall k :: first <= k < block ==> Passes(d, m, dataSize, k) && verified[k]
      {
        Interfere(d, m);
        if !verified[block] {
          if !CheckBlock(d, m, block) {
            return false;
          }
          Interfere(d, m);
          Mark(d, m, block);
        }
      }
      ok := true;
    }

    predicate CheckBlock(d: Digests, m: Bytes, block: nat)
      reads this
      requires SegmentSize(dataSize) == |m| && block < BlockCount(dataSize)
      ensures CheckBlock(d, m, block) <==> Passes(d, m, dataSize, block)
    {
      d.crc(Block(m[..dataSize], block)) == StoredChecksum(m, dataSize, block)
    }

    /** Sets the mark of a block that passed; whoever sets it first counts it down. */
    method Mark(d: Digests, m: Bytes, block: nat)
      requires Valid(d, m) && block < |verified| && Passes(d, m, dataSize, block)
      modifies this
      ensures Valid(d, m) && (old(fully) ==> fully) && verified == old(verified)[block := true]
      ensures !old(verified)[block] ==> remaining == old(remaining) - 1 && (remaining == 0 ==> fully)
      ensures old(verified)[block] ==> remaining == old(remaining) && fully == old(fully)
    {
      hide Passes, BlockCount, SegmentSize;
      var previous := verified[block];
      verified := verified[block := true];
      if previous {
        assert verified == old(verified);
      } else {
        UnsetOne(old(verified), block);
        UnsetAll(verified);
        remaining := remaining - 1;
        if remaining == 0 {
          fully := true;
        }
      }
    }
  }

  lemma AllPass(d: Digests, m: Bytes, dataSize: nat)
    requires SegmentSize(dataSize) == |m| && forall i :: 0 <= i < BlockCount(dataSize) ==> Passes(d, m, dataSize, i)
    ensures BlocksMatch(d, m, dataSize)
  {
    hide Block, BlockCount, StoredChecksum;
    forall i | 0 <= i < BlockCount(dataSize)
      ensures d.crc(Block(m[..dataSize], i)) == StoredChecksum(m, dataSize, i)
    {
      assert Passes(d, m, dataSize, i);
    }
  }

  lemma EveryPass(d: Digests, m: Bytes, dataSize: nat, i: nat)
    requires SegmentSize(dataSize) == |m| && i < BlockCount(dataSize)
    ensures BlocksMatch(d, m, dataSize) ==> Passes(d, m, dataSize, i)
  {
    hide Block, StoredChecksum;
  }

  lemma LastBlock(start: nat, end: nat, dataSize: nat)
    requires start < end <= dataSize
    ensures start / BLOCK_SIZE <= (end - 1) / BLOCK_SIZE < BlockCount(dataSize)
  {
  }

  // ------------------------------------------------------------- damaged mappings

  /**
   * `m` is the mapping of a Base whose intact bytes are `good`: only data bytes may differ, and the
   * checksum hypothesis holds, that a damaged block which still matches its checksum is undamaged.
   */
  ghost predicate Altered(d: Digests, m: Bytes, good: Bytes, dataSize: nat) {
    && |m| == |good| == SegmentSize(dataSize)
    && m[dataSize..] == good[dataSize..]
    && BlocksMatch(d, good, dataSize)
    && forall i :: 0 <= i < BlockCount(dataSize) ==> NoCollision(d, m, good, dataSize, i)
  }

  ghost predicate NoCollision(d: Digests, m: Bytes, good: Bytes, dataSize: nat, i: nat)
    requires dataSize <= |m| && dataSize <= |good| && i < BlockCount(dataSize)
  {
    d.crc(Block(m[..dataSize], i)) == d.crc(Block(good[..dataSize], i)) ==>
      Block(m[..dataSize], i) == Block(good[..dataSize], i)
  }

  lemma StoredUnaltered(m: Bytes, good: Bytes, dataSize: nat, i: nat)
    requires |m| == |good| == SegmentSize(dataSize) && m[dataSize..] == good[dataSize..] && i < BlockCount(dataSize)
    ensures StoredChecksum(m, dataSize, i) == StoredChecksum(good, dataSize, i)
  {
    hide Value, BlockCount;
    var at := dataSize + 4 * i;
    SubSlice(m, dataSize, |m|, 4 * i, 4 * i + 4);
    SubSlice(good, dataSize, |good|, 4 * i, 4 * i + 4);
    assert m[at..at + 4] == good[at..at + 4];
  }

  /** A block that passes is undamaged. */
  lemma PassingBlock(d: Digests, m: Bytes, good: Bytes, dataSize: nat, k: nat)
    requires Altered(d, m, good, dataSize) && Passes(d, m, dataSize, k)
    ensures dataSize <= |m| && dataSize <= |good| && k < BlockCount(dataSize)
    ensures Block(m[..dataSize], k) == Block(good[..dataSize], k)
  {
    hide Block, StoredChecksum, BlockCount;
    StoredUnaltered(m, good, dataSize, k);
    assert NoCollision(d, m, good, dataSize, k);
  }

  lemma ByteOfBlock(data: Bytes, i: nat)
    requires i < |data|
    ensures i / BLOCK_SIZE < BlockCount(|data|)
    ensures i - i / BLOCK_SIZE * BLOCK_SIZE < |Block(data, i / BLOCK_SIZE)|
    ensures data[i] == Block(data, i / BLOCK_SIZE)[i - i / BLOCK_SIZE * BLOCK_SIZE]
  {
  }

  /** A range whose blocks pass reads as the intact Base does. */
  lemma PassingRange(d: Digests, m: Bytes, good: Bytes, dataSize: nat, lo: nat, hi: nat)
    requires Altered(d, m, good, dataSize) && RangePasses(d, m, dataSize, lo, hi)
    ensures hi <= |m| && hi <= |good| && m[lo..hi] == good[lo..hi]
  {
    hide BlocksMatch, Passes, NoCollision, BlockCount;
    assert dataSize <= |m|;
    forall i | lo <= i < hi
      ensures m[i] == good[i]
    {
      PassingByte(d, m, good, dataSize, i, lo, hi);
    }
  }

  lemma PassingByte(d: Digests, m: Bytes, good: Bytes, dataSize: nat, i: nat, lo: nat, hi: nat)
    requires Altered(d, m, good, dataSize) && RangePasses(d, m, dataSize, lo, hi) && lo <= i < hi
    ensures hi <= dataSize <= |m| && dataSize <= |good| && m[i] == good[i]
  {
    assert dataSize <= |m| && dataSize <= |good|;
    BlocksBetween(i, lo, hi);
    assert Passes(d, m, dataSize, i / BLOCK_SIZE);
    hide *;
    PassingBlock(d, m, good, dataSize, i / BLOCK_SIZE);
    ByteOfBlock(m[..dataSize], i);
    ByteOfBlock(good[..dataSize], i);
  }

  lemma BlocksBetween(i: nat, lo: nat, hi: nat)
    requires lo <= i < hi
    ensures lo / BLOCK_SIZE <= i / BLOCK_SIZE <= (hi - 1) / BLOCK_SIZE
  {
  }

  /** When every block passes, the mapping is the intact one. */
  lemma AllPassing(d: Digests, m: Bytes, good: Bytes, dataSize: nat)
    requires Altered(d, m, good, dataSize) && BlocksMatch(d, m, dataSize)
    ensures m == good
  {
    hide Block, StoredChecksum, BlockCount, NoCollision;
    assert dataSize <= |m|;
    forall k | 0 <= k < BlockCount(dataSize)
      ensures Passes(d, m, dataSize, k)
    {
      EveryPass(d, m, dataSize, k);
    }
    RangeFromAll(d, m, dataSize);
    PassingRange(d, m, good, dataSize, 0, dataSize);
    assert m == m[0..dataSize] + m[dataSize..];
    assert good == good[0..dataSize] + good[dataSize..];
  }

  lemma RangeFromAll(d: Digests, m: Bytes, dataSize: nat)
    requires forall k :: 0 <= k < BlockCount(dataSize) ==> Passes(d, m, dataSize, k)
    ensures RangePasses(d, m, dataSize, 0, dataSize)
  {
    hide Passes, BlockCount;
    if dataSize > 0 {
      LastBlock(0, dataSize, dataSize);
    }
  }

  // ------------------------------------------------------ lookup that verifies on read

  datatype ReadResult = Answered(value: Option<Bytes>) | CorruptedBlock

  /** Two mappings that agree on a slot read the same slot. */
  lemma SlotSame(m: Bytes, good: Bytes, s: nat)
    requires RecordsStart(s + 1) <= |m| && RecordsStart(s + 1) <= |good|
    requires m[RecordsStart(s)..RecordsStart(s + 1)] == good[RecordsStart(s)..RecordsStart(s + 1)]
    ensures ReadSlot(m, s) == ReadSlot(good, s)
  {
    hide Value;
    var at := RecordsStart(s);
    SubSlice(m, at, at + 12, 0, 4);
    SubSlice(good, at, at + 12, 0, 4);
    SubSlice(m, at, at + 12, 4, 12);
    SubSlice(good, at, at + 12, 4, 12);
  }

  /** Where the record at `offset` ends, as its header says. */
  function RecordEnd(m: Bytes, offset: nat): (end: nat)
    requires offset + 8 <= |m|
    ensures end >= offset + 8
  {
    offset + 8 + U32At(m, offset) + U32At(m, offset + 4)
  }

  lemma SameEnd(m: Bytes, good: Bytes, offset: nat)
    requires offset + 8 <= |m| && offset + 8 <= |good| && RecordEnd(good, offset) <= |m|
    requires RecordEnd(good, offset) <= |good|
    requires m[offset..RecordEnd(good, offset)] == good[offset..RecordEnd(good, offset)]
    ensures RecordEnd(m, offset) == RecordEnd(good, offset)
  {
    hide Value;
    var end := RecordEnd(good, offset);
    SubSlice(m, offset, end, 0, 4);
    SubSlice(good, offset, end, 0, 4);
    SubSlice(m, offset, end, 4, 8);
    SubSlice(good, offset, end, 4, 8);
  }

  /** Two mappings that agree up to the end one of them names compare alike. */
  lemma CompareSame(m: Bytes, good: Bytes, dataSize: nat, start: nat, offset: nat, key: Bytes)
    requires offset + 8 <= dataSize <= |m| && dataSize <= |good|
    requires RecordEnd(m, offset) <= dataSize && m[offset..RecordEnd(m, offset)] == good[offset..RecordEnd(m, offset)]
    ensures CompareRecord(m, dataSize, start, start + offset, key)
            == CompareRecord(good, dataSize, start, start + offset, key)
  {
    var end := RecordEnd(m, offset);
    var keyLen: nat := U32At(m, offset);
    hide Value;
    SubSlice(m, offset, end, 0, 4);
    SubSlice(good, offset, end, 0, 4);
    SubSlice(m, offset, end, 4, 8);
    SubSlice(good, offset, end, 4, 8);
    assert U32At(m, offset) == U32At(good, offset) && U32At(m, offset + 4) == U32At(good, offset + 4);
    hide U32At;
    SubSlice(m, offset, end, 8, 8 + keyLen);
    SubSlice(good, offset, end, 8, 8 + keyLen);
    SubSlice(m, offset, end, 8 + keyLen, end - offset);
    SubSlice(good, offset, end, 8 + keyLen, end - offset);
  }

  /** On the intact Base every occupied slot leads to a record inside the data. */
  lemma IntactRecord(d: Digests, b: Base, s: nat)
    requires Valid(d, b) && s < |b.owner| && RecordsStart(s + 1) <= |BaseBytes(d, b)|
    ensures var good, slot := BaseBytes(d, b), ReadSlot(BaseBytes(d, b), s);
            slot.offset != 0 ==>
              && b.start <= slot.offset && slot.offset - b.start + 8 <= DataSize(b) <= |good|
              && RecordEnd(good, slot.offset - b.start) <= DataSize(b)
  {
    hide *;
    SlotOfBase(d, b, s);
    if b.owner[s].Some? {
      OwnerInRange(d, b, s);
      var i := b.owner[s].value;
      RecordOfBase(d, b, i);
      BaseFacts(d, b);
      RecordFits(BaseBytes(d, b), RecordOffset(b.entries, |b.owner|, i), b.entries[i]);
    } else {
      EmptySlot(d, b, s);
    }
  }

  lemma EmptySlot(d: Digests, b: Base, s: nat)
    requires Valid(d, b) && s < |b.owner| && b.owner[s].None?
    ensures SlotIn(d, b, s).offset == 0
  {
  }

  lemma RecordFits(m: Bytes, offset: nat, e: Entry)
    requires Encodable(e) && offset + |RecordBytes(e)| <= |m| && m[offset..offset + |RecordBytes(e)|] == RecordBytes(e)
    ensures RecordEnd(m, offset) == offset + |RecordBytes(e)|
  {
    hide U32At;
    RecordReadsBack(m, offset, e);
  }

  lemma SlotInData(b: Base, s: nat)
    requires s < |b.owner|
    ensures RecordsStart(s + 1) == RecordsStart(s) + SLOT_SIZE <= RecordsStart(|b.owner|) <= DataSize(b)
  {
  }

  /** The verified part of the mapping is that of the intact Base. */
  ghost predicate Agrees(m: Bytes, good: Bytes, lo: nat, hi: nat) {
    lo <= hi <= |m| && hi <= |good| && m[lo..hi] == good[lo..hi]
  }

  lemma VerifiedAgrees(d: Digests, m: Bytes, good: Bytes, dataSize: nat, lo: nat, hi: nat)
    requires Altered(d, m, good, dataSize) && (RangePasses(d, m, dataSize, lo, hi) || BlocksMatch(d, m, dataSize))
    ensures BlocksMatch(d, m, dataSize) ==> m == good
    ensures lo <= hi <= |m| ==> Agrees(m, good, lo, hi)
    ensures m == good || hi <= dataSize
  {
    hide BlocksMatch, Passes, NoCollision, BlockCount;
    if BlocksMatch(d, m, dataSize) {
      AllPassing(d, m, good, dataSize);
    } else {
      PassingRange(d, m, good, dataSize, lo, hi);
    }
  }

  lemma Sizes(d: Digests, m: Bytes, b: Base)
    requires Valid(d, b) && Altered(d, m, BaseBytes(d, b), DataSize(b))
    ensures |m| == |BaseBytes(d, b)| && RecordsStart(|b.owner|) <= DataSize(b) <= |m|
  {
    hide Valid, BaseBytes, BlocksMatch, NoCollision;
  }

  /** When nothing needs verifying any more, the mapping is intact. */
  lemma FlagMeansAll(d: Digests, m: Bytes, good: Bytes, verifier: SegmentVerifier)
    requires Altered(d, m, good, verifier.dataSize) && verifier.Valid(d, m)
    requires verifier.fully || BlocksMatch(d, m, verifier.dataSize)
    ensures m == good
  {
    hide Passes, BlocksMatch, Altered, SegmentSize;
    if verifier.fully {
      AllPass(d, m, verifier.dataSize);
    }
    AllPassing(d, m, good, verifier.dataSize);
  }

  /** What a lookup over an altered mapping relies on. */
  ghost predicate Probing(d: Digests, m: Bytes, verify: bool, verifier: SegmentVerifier, b: Base)
    reads verifier
  {
    && Valid(d, b) && verifier.dataSize == DataSize(b)
    && Altered(d, m, BaseBytes(d, b), DataSize(b)) && verifier.Valid(d, m)
    && (!verify ==> m == BaseBytes(d, b))
  }

  /**
   * The blocks this lookup has to read pass: those of every slot it probes up to the first empty one,
   * and those of every record whose fingerprint is the key's, up to the one that holds the key.
   */
  ghost predicate ReadsClean(d: Digests, m: Bytes, b: Base, key: Bytes, probe: nat)
    requires Valid(d, b) && probe <= |b.owner|
    decreases |b.owner| - probe
  {
    if probe == |b.owner| then true
    else
      var s := SlotOfProbe(d.hash(key), probe, |b.owner|);
      && RangePasses(d, m, DataSize(b), RecordsStart(s), RecordsStart(s + 1))
      && (b.owner[s].Some? ==>
            var i := b.owner[s].value;
            if Fingerprint(d.hash(b.entries[i].key)) != Fingerprint(d.hash(key)) then
              ReadsClean(d, m, b, key, probe + 1)
            else
              var at := RecordOffset(b.entries, |b.owner|, i);
              && RangePasses(d, m, DataSize(b), at, at + |RecordBytes(b.entries[i])|)
              && (b.entries[i].key != key ==> ReadsClean(d, m, b, key, probe + 1)))
  }

  /** A range without damage passes, whatever is damaged elsewhere. */
  lemma UndamagedPasses(d: Digests, m: Bytes, good: Bytes, dataSize: nat, lo: nat, hi: nat)
    requires |m| == |good| == SegmentSize(dataSize) && m[dataSize..] == good[dataSize..]
    requires BlocksMatch(d, good, dataSize)
    requires lo <= hi <= dataSize
    requires forall i :: 0 <= i < dataSize && lo / BLOCK_SIZE <= i / BLOCK_SIZE <= (hi - 1) / BLOCK_SIZE ==>
               m[i] == good[i]
    ensures RangePasses(d, m, dataSize, lo, hi)
  {
    hide BlocksMatch, Passes, StoredChecksum;
    if lo < hi {
      LastBlock(lo, hi, dataSize);
      forall k | lo / BLOCK_SIZE <= k <= (hi - 1) / BLOCK_SIZE
        ensures Passes(d, m, dataSize, k)
      {
        UndamagedBlock(d, m, good, dataSize, k);
      }
    }
  }

  lemma UndamagedBlock(d: Digests, m: Bytes, good: Bytes, dataSize: nat, k: nat)
    requires |m| == |good| == SegmentSize(dataSize) && m[dataSize..] == good[dataSize..]
    requires BlocksMatch(d, good, dataSize)
    requires k < BlockCount(dataSize) && forall i :: 0 <= i < dataSize && i / BLOCK_SIZE == k ==> m[i] == good[i]
    ensures Passes(d, m, dataSize, k)
  {
    hide StoredChecksum;
    StoredUnaltered(m, good, dataSize, k);
    var x, y := m[..dataSize], good[..dataSize];
    assert |Block(x, k)| == |Block(y, k)|;
    forall j | 0 <= j < |Block(x, k)|
      ensures Block(x, k)[j] == Block(y, k)[j]
    {
      InBlock(k, j);
      assert Block(x, k)[j] == m[k * BLOCK_SIZE + j] && Block(y, k)[j] == good[k * BLOCK_SIZE + j];
    }
    assert Block(x, k) == Block(y, k);
  }

  lemma InBlock(k: nat, j: nat)
    requires j < BLOCK_SIZE
    ensures (k * BLOCK_SIZE + j) / BLOCK_SIZE == k
  {
  }

  /** Reads a slot after verifying its blocks. */
  method ReadVerifiedSlot(d: Digests, m: Bytes, verify: bool, verifier: SegmentVerifier, s: nat, ghost b: Base)
    returns (slot: Option<Slot>)
    requires Probing(d, m, verify, verifier, b) && s < |b.owner| && RecordsStart(s + 1) <= |BaseBytes(d, b)|
    modifies verifier
    ensures Probing(d, m, verify, verifier, b)
    ensures slot.Some? ==> slot.value == ReadSlot(BaseBytes(d, b), s)
    ensures RangePasses(d, m, DataSize(b), RecordsStart(s), RecordsStart(s + 1)) ==> slot.Some?
  {
    hide Valid, BaseBytes, DataSize, BlocksMatch, Altered, ReadSlot, RecordsStart, RangePasses;
    ghost var good := BaseBytes(d, b);
    Sizes(d, m, b);
    SlotInData(b, s);
    if verify {
      var ok := verifier.VerifyRange(d, m, RecordsStart(s), RecordsStart(s) + SLOT_SIZE);
      if !ok {
        return None;
      }
      VerifiedAgrees(d, m, good, verifier.dataSize, RecordsStart(s), RecordsStart(s + 1));
    }
    SlotSame(m, good, s);
    slot := Some(ReadSlot(m, s));
  }

  /** Compares the record at `offset` with the key, after verifying the blocks of the record. */
  method CompareVerified(d: Digests, m: Bytes, verify: bool, verifier: SegmentVerifier, start: nat, offset: nat,
                         key: Bytes, ghost s: nat, ghost b: Base)
    returns (outcome: Option<Outcome>)
    requires Probing(d, m, verify, verifier, b) && start == b.start
    requires s < |b.owner| && RecordsStart(s + 1) <= |BaseBytes(d, b)|
    requires ReadSlot(BaseBytes(d, b), s).offset == start + offset
    requires 0 < start + offset && offset + 8 <= DataSize(b) <= |BaseBytes(d, b)|
    modifies verifier
    ensures Probing(d, m, verify, verifier, b)
    ensures outcome.Some? ==> outcome.value == CompareRecord(BaseBytes(d, b), DataSize(b), start, start + offset, key)
    ensures RangePasses(d, m, DataSize(b), offset, RecordEnd(BaseBytes(d, b), offset)) ==> outcome.Some?
  {
    hide Valid, BaseBytes, DataSize, BlocksMatch, Altered, ReadSlot, RangePasses, CompareRecord, RecordEnd,
         RecordsStart;
    ghost var good := BaseBytes(d, b);
    Sizes(d, m, b);
    var dataSize := verifier.dataSize;
    if verify {
      var end := RecordEnd(m, offset);
      var ok := verifier.VerifyRange(d, m, offset, end);
      if !ok {
        if RangePasses(d, m, dataSize, offset, RecordEnd(good, offset)) {
          PassingRange(d, m, good, dataSize, offset, RecordEnd(good, offset));
          SameEnd(m, good, offset);
        }
        return None;
      }
      VerifiedAgrees(d, m, good, dataSize, offset, end);
      if m != good {
        CompareSame(m, good, dataSize, start, offset, key);
      }
    }
    outcome := Some(CompareRecord(m, dataSize, start, start + offset, key));
  }

  /** One probe of a clean lookup, in terms of the bytes of the intact Base. */
  lemma CleanProbe(d: Digests, m: Bytes, b: Base, key: Bytes, probe: nat)
    requires Valid(d, b) && probe < |b.owner| && ReadsClean(d, m, b, key, probe)
    ensures var s := SlotOfProbe(d.hash(key), probe, |b.owner|);
            var good := BaseBytes(d, b);
            && RecordsStart(s + 1) <= |good|
            && RangePasses(d, m, DataSize(b), RecordsStart(s), RecordsStart(s + 1))
            && var slot := ReadSlot(good, s);
            && (slot.offset != 0 ==> b.start <= slot.offset && slot.offset - b.start + 8 <= DataSize(b) <= |good|)
            && (slot.offset != 0 && slot.fingerprint != Fingerprint(d.hash(key)) ==>
                  ReadsClean(d, m, b, key, probe + 1))
            && (slot.offset != 0 && slot.fingerprint == Fingerprint(d.hash(key)) ==>
                  && RangePasses(d, m, DataSize(b), slot.offset - b.start, RecordEnd(good, slot.offset - b.start))
                  && (CompareRecord(good, DataSize(b), b.start, slot.offset, key).Hit?
                      || ReadsClean(d, m, b, key, probe + 1)))
  {
    hide *;
    var s := SlotOfProbe(d.hash(key), probe, |b.owner|);
    SlotOfBase(d, b, s);
    SlotInData(b, s);
    BaseFacts(d, b);
    CleanUnfolds(d, m, b, key, probe);
    CleanFacts(d, m, b, key, probe, s);
    if b.owner[s].Some? {
      var i := b.owner[s].value;
      OwnerInRange(d, b, s);
      RecordIsLong(b.entries[i]);
      RecordOfBase(d, b, i);
      RecordFits(BaseBytes(d, b), RecordOffset(b.entries, |b.owner|, i), b.entries[i]);
      CompareOfBase(d, b, i, key);
    } else {
      EmptySlot(d, b, s);
    }
  }

  ghost predicate CleanAt(d: Digests, m: Bytes, b: Base, key: Bytes, probe: nat, s: nat)
    requires Valid(d, b) && probe < |b.owner| && s < |b.owner|
    requires b.owner[s].Some? ==> b.owner[s].value < |b.entries|
  {
    && RangePasses(d, m, DataSize(b), RecordsStart(s), RecordsStart(s + 1))
    && (b.owner[s].Some? ==>
          var e := b.entries[b.owner[s].value];
          var at := RecordOffset(b.entries, |b.owner|, b.owner[s].value);
          if Fingerprint(d.hash(e.key)) != Fingerprint(d.hash(key)) then ReadsClean(d, m, b, key, probe + 1)
          else
            && RangePasses(d, m, DataSize(b), at, at + |RecordBytes(e)|)
            && (e.key != key ==> ReadsClean(d, m, b, key, probe + 1)))
  }

  lemma CleanFacts(d: Digests, m: Bytes, b: Base, key: Bytes, probe: nat, s: nat)
    requires Valid(d, b) && probe < |b.owner| && s < |b.owner|
    requires b.owner[s].Some? ==> b.owner[s].value < |b.entries|
    requires CleanAt(d, m, b, key, probe, s)
    ensures RangePasses(d, m, DataSize(b), RecordsStart(s), RecordsStart(s + 1))
    ensures b.owner[s].Some? ==>
              var e := b.entries[b.owner[s].value];
              var at := RecordOffset(b.entries, |b.owner|, b.owner[s].value);
              if Fingerprint(d.hash(e.key)) != Fingerprint(d.hash(key)) then ReadsClean(d, m, b, key, probe + 1)
              else
                && RangePasses(d, m, DataSize(b), at, at + |RecordBytes(e)|)
                && (e.key == key || ReadsClean(d, m, b, key, probe + 1))
  {
    hide Valid, DataSize, RangePasses, RecordsStart, RecordOffset, RecordBytes, Fingerprint, ReadsClean;
  }

  lemma RecordIsLong(e: Entry)
    ensures |RecordBytes(e)| >= 8
  {
  }

  lemma CleanUnfolds(d: Digests, m: Bytes, b: Base, key: Bytes, probe: nat)
    requires Valid(d, b) && probe < |b.owner|
    ensures var s := SlotOfProbe(d.hash(key), probe, |b.owner|);
            && (b.owner[s].Some? ==> b.owner[s].value < |b.entries|)
            && (ReadsClean(d, m, b, key, probe) <==> CleanAt(d, m, b, key, probe, s))
  {
    hide Valid, DataSize, RangePasses, RecordsStart, RecordOffset, RecordBytes, Fingerprint, SlotOfProbe;
    var s := SlotOfProbe(d.hash(key), probe, |b.owner|);
    if b.owner[s].Some? {
      OwnerInRange(d, b, s);
    }
  }

  /** The intact Base is clean for every lookup. */
  lemma {:induction false} IntactIsClean(d: Digests, b: Base, key: Bytes, probe: nat)
    requires Valid(d, b) && probe <= |b.owner|
    ensures ReadsClean(d, BaseBytes(d, b), b, key, probe)
    decreases |b.owner| - probe
  {
    hide *;
    var m := BaseBytes(d, b);
    if probe < |b.owner| {
      var s := SlotOfProbe(d.hash(key), probe, |b.owner|);
      IntactIsClean(d, b, key, probe + 1);
      CleanUnfolds(d, m, b, key, probe);
      SlotInData(b, s);
      IntactRange(d, b, RecordsStart(s), RecordsStart(s + 1));
      if b.owner[s].Some? {
        var i := b.owner[s].value;
        RecordOfBase(d, b, i);
        IntactRange(d, b, RecordOffset(b.entries, |b.owner|, i),
                    RecordOffset(b.entries, |b.owner|, i) + |RecordBytes(b.entries[i])|);
      }
      CleanFrom(d, m, b, key, probe, s);
    } else {
      CleanAtEnd(d, m, b, key);
    }
  }

  lemma CleanAtEnd(d: Digests, m: Bytes, b: Base, key: Bytes)
    requires Valid(d, b)
    ensures ReadsClean(d, m, b, key, |b.owner|)
  {
    hide Valid, RangePasses;
  }

  lemma CleanFrom(d: Digests, m: Bytes, b: Base, key: Bytes, probe: nat, s: nat)
    requires Valid(d, b) && probe < |b.owner| && s < |b.owner|
    requires b.owner[s].Some? ==> b.owner[s].value < |b.entries|
    requires RangePasses(d, m, DataSize(b), RecordsStart(s), RecordsStart(s + 1)) && ReadsClean(d, m, b, key, probe + 1)
    requires b.owner[s].Some? ==>
               var at := RecordOffset(b.entries, |b.owner|, b.owner[s].value);
               RangePasses(d, m, DataSize(b), at, at + |RecordBytes(b.entries[b.owner[s].value])|)
    ensures CleanAt(d, m, b, key, probe, s)
  {
    hide Valid, DataSize, RangePasses, RecordsStart, RecordOffset, RecordBytes, Fingerprint, ReadsClean;
  }

  lemma IntactRange(d: Digests, b: Base, lo: nat, hi: nat)
    requires Valid(d, b) && lo <= hi <= DataSize(b)
    ensures RangePasses(d, BaseBytes(d, b), DataSize(b), lo, hi)
  {
    hide Valid, DataSize, BaseBytes, BlocksMatch;
    BaseFacts(d, b);
    WrittenBaseAccepted(d, b);
    UndamagedPasses(d, BaseBytes(d, b), BaseBytes(d, b), DataSize(b), lo, hi);
  }

  /**
   * `lookup_segment`. Whatever bytes of the data are altered and whatever was verified before, an
   * answer is the answer of the intact Base; and damage that it does not have to read never keeps it
   * from answering.
   */
  method LookupSegment(d: Digests, m: Bytes, onRead: bool, start: nat, slots: nat, verifier: SegmentVerifier,
                       key: Bytes, hash: U64, ghost b: Base)
    returns (r: ReadResult)
    requires Valid(d, b) && start == b.start && slots == |b.owner|
    requires hash == d.hash(key) && verifier.dataSize == DataSize(b)
    requires Altered(d, m, BaseBytes(d, b), DataSize(b)) && verifier.Valid(d, m)
    requires !onRead ==> BlocksMatch(d, m, DataSize(b))
    modifies verifier
    ensures verifier.Valid(d, m)
    ensures r.Answered? ==> r.value == MapGet(AsMap(b.entries), key)
    ensures ReadsClean(d, m, b, key, 0) ==> r.Answered?
    ensures m == BaseBytes(d, b) ==> r.Answered?
  {
    hide Valid, BaseBytes, DataSize, BlocksMatch, Altered, ReadSlot, RecordsStart, SlotOfProbe, AsMap, Fingerprint,
         Passes, Unset, SegmentSize, RangePasses, RecordEnd, ReadsClean, MarksHold, NoCollision;
    ghost var good := BaseBytes(d, b);
    var dataSize := verifier.dataSize;
    Sizes(d, m, b);
    LookupIsMap(d, b, key);
    IntactIsClean(d, b, key, 0);
    var verify := onRead && !verifier.fully;
    if !verify {
      FlagMeansAll(d, m, good, verifier);
    }
    var probe := 0;
    while probe < slots
      invariant 0 <= probe <= slots && Probing(d, m, verify, verifier, b)
      invariant LookupFrom(good, dataSize, start, slots, key, hash, probe) == MapGet(AsMap(b.entries), key)
      invariant ReadsClean(d, m, b, key, 0) ==> ReadsClean(d, m, b, key, probe)
    {
      var s := SlotOfProbe(hash, probe, slots);
      SlotInData(b, s);
      if ReadsClean(d, m, b, key, probe) {
        CleanProbe(d, m, b, key, probe);
      }
      var slot := ReadVerifiedSlot(d, m, verify, verifier, s, b);
      if slot.None? {
        return CorruptedBlock;
      }
      var absolute := slot.value.offset;
      if absolute == 0 {
        return Answered(None);
      }
      if slot.value.fingerprint == Fingerprint(hash) {
        if absolute < start || absolute - start + 8 > dataSize {
          return Answered(None);
        }
        var outcome := CompareVerified(d, m, verify, verifier, start, absolute - start, key, s, b);
        if outcome.None? {
          return CorruptedBlock;
        }
        if outcome.value.Hit? {
          return Answered(Some(outcome.value.value));
        }
      }
      probe := probe + 1;
    }
    r := Answered(None);
  }
}
