/** Reopening after the process died but the machine did not: what was written is not yet durable. */
module Pending {
  import opened Bytes
  import opened Log
  import opened Roots
  import opened Segment
  import opened Device
  import opened Images
  import opened CrashSafety
  import opened Loss
  import opened Database

  /**
   * Opening such a file reads what is pending and trims it. If the machine then stops in order, both
   * maps that were possible before are still all that is possible.
   */
  lemma TrimOverPending(d: Digests, t: Moment, a: map<Bytes, Bytes>, b: map<Bytes, Bytes>, sb: Superblock, c: Content,
                        tail: Bytes)
    requires Survives(d, t, a, b) && GenuinePages(d, t.disk.durable, Image(t.disk), t.roots)
    requires Holds(d, Image(t.disk), sb, c, tail)
    ensures Meaning(c) == a || Meaning(c) == b
    ensures var end := sb.logStart + |LogBytes(d, c.batches)|;
            Survives(d, Moment(t.disk.(pending := t.disk.pending + [SetLen(end)]), t.roots), a, b)
  {
    hide *;
    WholeSurvives(d, t, a, b);
    var image, end := Image(t.disk), sb.logStart + |LogBytes(d, c.batches)|;
    HeldOpens(d, image, sb, c, tail);
    if RecoversTo(d, image, a) {
      RecoveryIsUnique(d, image, a, Meaning(c));
    } else {
      RecoveryIsUnique(d, image, b, Meaning(c));
    }
    LogEnds(d, image, sb, c, tail);
    ShrunkHolds(d, image, sb, c, tail, image[..end]);
    HeldOpens(d, image[..end], sb, c, tail[..0]);
    CutSurvives(d, t, a, b, end);
  }

  /** A cut is safe in order when what it leaves recovers. */
  lemma CutSurvives(d: Digests, t: Moment, a: map<Bytes, Bytes>, b: map<Bytes, Bytes>, end: nat)
    requires Survives(d, t, a, b) && end <= |Image(t.disk)|
    requires RecoversTo(d, Image(t.disk)[..end], a) || RecoversTo(d, Image(t.disk)[..end], b)
    ensures Survives(d, Moment(t.disk.(pending := t.disk.pending + [SetLen(end)]), t.roots), a, b)
  {
    hide RecoversTo, GenuinePages, CrashesTo, Image, Resize;
    ResizeIsPrefix(Image(t.disk), end);
    var disk' := t.disk.(pending := t.disk.pending + [SetLen(end)]);
    forall crashed | CrashesTo(disk', crashed) && GenuinePages(d, t.disk.durable, crashed, t.roots)
      ensures RecoversTo(d, crashed, a) || RecoversTo(d, crashed, b)
    {
      CrashAfterOneMore(t.disk, SetLen(end), crashed);
      if !CrashesTo(t.disk, crashed) {
        var part :| PartOf(part, SetLen(end)) && crashed == Do(Image(t.disk), part);
        assert crashed == Resize(Image(t.disk), end);
      }
    }
  }

  lemma WholeSurvives(d: Digests, t: Moment, a: map<Bytes, Bytes>, b: map<Bytes, Bytes>)
    requires Survives(d, t, a, b) && GenuinePages(d, t.disk.durable, Image(t.disk), t.roots)
    ensures RecoversTo(d, Image(t.disk), a) || RecoversTo(d, Image(t.disk), b)
  {
    hide RecoversTo, GenuinePages, CrashesTo, Image;
    WholeImage(t.disk);
  }

  lemma WholeImage(disk: Disk)
    ensures CrashesTo(disk, Image(disk))
  {
  }

  /** No root but `sb` points into the first `len` bytes. */
  ghost predicate OnlyRoot(d: Digests, image: Bytes, sb: Superblock, len: nat) {
    forall slot: nat, other :: slot < 2 && RootAt(d, image, slot) == Fields(other) && other != sb ==> !Fits(other, len)
  }

  /**
   * The process dies between writing the destination root and its sync, and the reopened file is cut
   * behind the relocated Base. If the machine now loses the page and keeps the cut, neither generation
   * is selected any more: the staging Base is gone and the relocated one has no root. Unless an older
   * root happens to fit, the file does not open.
   */
  lemma CutBeforeRoot(d: Digests, durable: Bytes, sb: Superblock, c: Content, next: Superblock, b: Base)
    requires RelocatedOn(d, durable, sb, c, next, b)
    requires next.logStart < sb.logStart && next.generation == sb.generation + 1
    ensures var disk := Disk(durable, [PageWrite(PageOf(next.generation), EncodePage(d, next)), SetLen(next.logStart)]);
            LosesTo(disk, durable[..next.logStart])
    ensures var left := Latest(d, durable[..next.logStart]); left != Found(sb) && left != Found(next)
    ensures OnlyRoot(d, durable, sb, next.logStart) ==> !Latest(d, durable[..next.logStart]).Found?
  {
    hide Stored, Holds, EncodePage, PageOf, LogBytes;
    HeldParts(d, durable, sb, c, []);
    CutLoses(durable, PageOf(next.generation), EncodePage(d, next), next.logStart);
    NeitherSelected(d, durable, sb, next, next.logStart);
    if OnlyRoot(d, durable, sb, next.logStart) {
      NothingSelected(d, durable, sb, next.logStart);
    }
  }

  lemma NothingSelected(d: Digests, image: Bytes, sb: Superblock, len: nat)
    requires OnlyRoot(d, image, sb, len) && len <= |image| && len < sb.logStart
    ensures !Latest(d, image[..len]).Found?
  {
    hide ReadRoot;
    LatestIsNewest(d, image[..len]);
    forall slot: nat | slot < 2
      ensures RootAt(d, image[..len], slot).Invalid? || RootAt(d, image[..len], slot) == RootAt(d, image, slot)
    {
      if (slot + 1) * PAGE_SIZE <= len {
        SubSlice(image, 0, len, slot * PAGE_SIZE, (slot + 1) * PAGE_SIZE);
      }
    }
  }

  lemma CutLoses(durable: Bytes, slot: nat, page: Bytes, len: nat)
    requires len <= |durable|
    ensures LosesTo(Disk(durable, [PageWrite(slot, page), SetLen(len)]), durable[..len])
  {
    var disk := Disk(durable, [PageWrite(slot, page), SetLen(len)]);
    assert disk.pending[..1] == [PageWrite(slot, page)];
    assert disk.pending[..1][..0] == [];
    assert forall i :: 0 <= i < len ==> MayHold(disk, i, durable[..len][i]);
  }

  lemma NeitherSelected(d: Digests, image: Bytes, sb: Superblock, next: Superblock, len: nat)
    requires Newest(d, image, sb) && len <= |image| && len < sb.logStart && next.generation == sb.generation + 1
    ensures Latest(d, image[..len]) != Found(sb) && Latest(d, image[..len]) != Found(next)
  {
    hide ReadRoot;
    if DATA_START <= len {
      SubSlice(image, 0, len, 0, PAGE_SIZE);
      SubSlice(image, 0, len, PAGE_SIZE, DATA_START);
    } else if PAGE_SIZE <= len {
      SubSlice(image, 0, len, 0, PAGE_SIZE);
    }
  }

  lemma RecoveredSelects(d: Digests, image: Bytes, m: map<Bytes, Bytes>)
    requires RecoversTo(d, image, m)
    ensures Latest(d, image).Found?
  {
    hide Latest, AcceptsBase, Reads, Scan;
  }

  /** The header on the medium carries the checksum of another header. */
  predicate Collides(d: Digests, durable: Bytes, slot: nat, next: Superblock)
    requires slot < 2
  {
    DATA_START <= |durable| && U32At(durable, slot * PAGE_SIZE + 68) == d.crc(Roots.HeaderFields(next))
  }

  /** The medium with nothing of the new page but its checksum. */
  function Torn(d: Digests, durable: Bytes, slot: nat, next: Superblock): (image: Bytes)
    requires slot < 2 && DATA_START <= |durable|
    ensures |image| == |durable|
  {
    Patch(durable, slot * PAGE_SIZE + 68, LittleEndian(d.crc(Roots.HeaderFields(next)), 4))
  }

  /** The checksum of one header over the fields of another: the page fails. */
  lemma TornFails(d: Digests, durable: Bytes, slot: nat, next: Superblock, len: nat)
    requires slot < 2 && DATA_START <= len <= |durable| && RootAt(d, durable, slot).Fields?
    requires !Collides(d, durable, slot, next)
    ensures RootAt(d, Torn(d, durable, slot, next)[..len], slot).Invalid?
  {
    hide U32At, U64At, LittleEndian, Roots.HeaderFields, Patch;
    var at, sum := slot * PAGE_SIZE, LittleEndian(d.crc(Roots.HeaderFields(next)), 4);
    var page, image := durable[at..at + PAGE_SIZE], Torn(d, durable, slot, next)[..len];
    var page' := image[at..at + PAGE_SIZE];
    assert forall i :: 0 <= i < 68 ==> page'[i] == image[at + i] == durable[at + i] == page[i];
    assert page'[..68] == page[..68];
    assert page'[12..16] == page'[..68][12..16] == page[12..16];
    SameField(page', page, 12, 0);
    SubSlice(durable, at, at + PAGE_SIZE, 68, 72);
    SameField(page, durable, 68, at);
    assert forall i :: 0 <= i < 4 ==> page'[68 + i] == image[at + 68 + i] == sum[i];
    assert page'[68..72] == sum;
    U32AtEncoded(page', 68, d.crc(Roots.HeaderFields(next)));
  }

  lemma SameField(s: Bytes, t: Bytes, offset: nat, at: nat)
    requires offset + 4 <= |s| && at + offset + 4 <= |t| && s[offset..offset + 4] == t[at + offset..at + offset + 4]
    ensures U32At(s, offset) == U32At(t, at + offset)
  {
  }

  lemma TornLoses(d: Digests, durable: Bytes, slot: nat, next: Superblock, len: nat)
    requires slot < 2 && DATA_START <= len <= |durable|
    ensures LosesTo(Disk(durable, [PageWrite(slot, EncodePage(d, next)), SetLen(len)]),
                    Torn(d, durable, slot, next)[..len])
  {
    hide Roots.HeaderFields, LittleEndian, Shortest, Longest;
    var page, image := EncodePage(d, next), Torn(d, durable, slot, next)[..len];
    var disk := Disk(durable, [PageWrite(slot, page), SetLen(len)]);
    CutLoses(durable, slot, page, len);
    assert page[68..72] == LittleEndian(d.crc(Roots.HeaderFields(next)), 4);
    forall i | 0 <= i < |image|
      ensures MayHold(disk, i, image[i])
    {
      var at := slot * PAGE_SIZE;
      if at + 68 <= i < at + 72 {
        assert image[i] == page[68..72][i - at - 68] == page[i - at];
        assert Covers(disk.pending[0], i, image[i]);
      } else {
        assert image[i] == durable[i];
      }
    }
  }

  lemma TornElsewhere(d: Digests, durable: Bytes, slot: nat, next: Superblock, len: nat)
    requires slot < 2 && DATA_START <= len <= |durable|
    ensures RootAt(d, Torn(d, durable, slot, next)[..len], 1 - slot) == RootAt(d, durable, 1 - slot)
  {
    hide Roots.HeaderFields, LittleEndian, RootAt;
    var keep, image := 1 - slot, Torn(d, durable, slot, next)[..len];
    assert forall i :: keep * PAGE_SIZE <= i < (keep + 1) * PAGE_SIZE ==> image[i] == durable[i];
    assert durable[keep * PAGE_SIZE..(keep + 1) * PAGE_SIZE] == image[keep * PAGE_SIZE..(keep + 1) * PAGE_SIZE];
    SamePagesSameRoots(d, durable, image, keep);
  }

  lemma CutElsewhere(d: Digests, durable: Bytes, slot: nat, len: nat)
    requires slot < 2 && DATA_START <= len <= |durable|
    ensures RootAt(d, durable[..len], slot) == RootAt(d, durable, slot)
  {
    hide RootAt;
    SubSlice(durable, 0, len, slot * PAGE_SIZE, (slot + 1) * PAGE_SIZE);
    SamePagesSameRoots(d, durable, durable[..len], slot);
  }

  lemma CutGenuine(d: Digests, durable: Bytes, roots: set<Superblock>, len: nat)
    requires DATA_START <= len <= |durable|
    ensures GenuinePages(d, durable, durable[..len], roots)
  {
    hide RootAt;
    CutElsewhere(d, durable, 0, len);
    CutElsewhere(d, durable, 1, len);
  }

  /**
   * With the page of the next root still pending, some loss leaves no root at all: the page torn
   * behind its fields fails, whatever older root it held, and the root in the other page points past
   * the cut. Only two headers with the same checksum could hide the tear.
   */
  lemma CutLosesAll(d: Digests, durable: Bytes, roots: set<Superblock>, sb: Superblock, next: Superblock, len: nat)
    returns (image: Bytes)
    requires Newest(d, durable, sb) && DATA_START <= len <= |durable| && len < sb.logStart
    requires next.generation == sb.generation + 1
    requires !Collides(d, durable, PageOf(next.generation), next)
    ensures LosesTo(Disk(durable, [PageWrite(PageOf(next.generation), EncodePage(d, next)), SetLen(len)]), image)
    ensures GenuinePages(d, durable, image, roots) && !Latest(d, image).Found?
  {
    hide RootAt, LosesTo, EncodePage, Torn, Collides;
    var slot := PageOf(next.generation);
    assert 1 - slot == PageOf(sb.generation);
    if RootAt(d, durable, slot).Fields? {
      image := Torn(d, durable, slot, next)[..len];
      TornFails(d, durable, slot, next, len);
      TornElsewhere(d, durable, slot, next, len);
      TornLoses(d, durable, slot, next, len);
    } else {
      image := durable[..len];
      CutElsewhere(d, durable, slot, len);
      CutElsewhere(d, durable, 1 - slot, len);
      CutLoses(durable, slot, EncodePage(d, next), len);
    }
    LatestIsNewest(d, image);
  }

  /**
   * So the cut survives losses exactly when the root page is durable before it. Made while the page is
   * still pending, there is no map that every loss recovers. Only where the page on the medium has the
   * new checksum by coincidence, and an older root fits, is this not decided.
   */
  lemma CutSurvivesWhen(d: Digests, durable: Bytes, roots: set<Superblock>, sb: Superblock, c: Content,
                        next: Superblock, b: Base, synced: bool)
    requires RelocatedOn(d, durable, sb, c, next, b) && Meaning(c) == Meaning(Content(b, []))
    requires next.logStart < sb.logStart && next.generation == sb.generation + 1
    requires !Collides(d, durable, PageOf(next.generation), next) || OnlyRoot(d, durable, sb, next.logStart)
    ensures var page, cut := PageWrite(PageOf(next.generation), EncodePage(d, next)), SetLen(next.logStart);
            var disk := if synced then Disk(Do(durable, page), [cut]) else Disk(durable, [page, cut]);
            var t := Moment(disk, roots + {next});
            && (SurvivesLoss(d, t, Meaning(c)) <==> synced)
            && (!synced ==> forall m :: !SurvivesLoss(d, t, m))
  {
    hide Stored, Holds, EncodePage, PageOf, Meaning, RecoversTo, GenuinePages, Do, PageWrite, LosesTo, LogBytes,
         Latest, Collides, OnlyRoot;
    RelocatedBounds(d, durable, sb, c, next, b);
    PublishedHolds(d, durable, sb, c, [], next, Content(b, []), durable[next.logStart..]);
    NoLog(d);
    var published := Do(durable, PageWrite(PageOf(next.generation), EncodePage(d, next)));
    if synced {
      ShrinkSurvivesLoss(d, published, roots + {next}, next, Content(b, []), durable[next.logStart..]);
    } else {
      NextFits(d, durable, sb, c, next, b);
      var image := durable[..next.logStart];
      if Collides(d, durable, PageOf(next.generation), next) {
        CutBeforeRoot(d, durable, sb, c, next, b);
        CutGenuine(d, durable, roots + {next}, next.logStart);
      } else {
        image := CutLosesAll(d, durable, roots + {next}, sb, next, next.logStart);
      }
      forall m
        ensures !RecoversTo(d, image, m)
      {
        if RecoversTo(d, image, m) {
          RecoveredSelects(d, image, m);
        }
      }
    }
  }

  lemma NextFits(d: Digests, durable: Bytes, sb: Superblock, c: Content, next: Superblock, b: Base)
    requires RelocatedOn(d, durable, sb, c, next, b)
    ensures DATA_START <= next.logStart <= |durable| && Newest(d, durable, sb)
  {
    hide Newest, LogBytes, Quiet, StorableLog, Placed;
    PlacedFits(d, durable, next, b);
  }
}
