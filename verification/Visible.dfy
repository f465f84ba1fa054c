/** What a caller can see of a healthy database, and how commits and compactions change it. */
module Visible {
  import opened Bytes
  import opened Log
  import opened Overlay
  import opened Roots
  import opened Segment
  import opened Lookup
  import opened Device
  import opened Images
  import opened CrashSafety
  import opened Listing
  import opened Storage
  import opened Database
  import Recovery

  /** The map, the length of the file, whether there is nothing to compact, and the root's generation. */
  datatype State = State(m: map<Bytes, Bytes>, length: nat, compact: bool, generation: nat)

  ghost function StateOf(h: Handle): State
    reads h, h.file
  {
    State(h.Contents(), h.file.Length(), AlreadyCompact(h.root, h.file.Length()), h.root.generation)
  }

  lemma StateParts(h: Handle)
    ensures StateOf(h).m == h.Contents() && StateOf(h).length == h.file.Length()
    ensures StateOf(h).generation == h.root.generation
  {
  }

  /** After a commit that no system call disturbs. */
  function Committed(s: State, ops: seq<Op>, limit: nat): State {
    if ops == [] || Verdict(ops, s.length, limit).Err? then s
    else State(Updated(s.m, ops), s.length + Log.HEADER_SIZE + |Payload(ops)|, false, s.generation)
  }

  /** After a compaction that no system call disturbs. */
  ghost function Compacted(s: State, limit: nat): State {
    if s.compact || CompactVerdict(s.m, s.compact, s.length, limit).Err? then s
    else State(s.m, DATA_START + MapSize(s.m).value, true, s.generation + 2)
  }

  /** Committing a batch updates the map the content stands for. */
  lemma BatchMeaning(c: Content, ops: seq<Op>)
    ensures Meaning(WithBatch(c, ops)) == Updated(Meaning(c), ops)
  {
    hide Overlaid, Updated, ApplyOps, ApplyBatches, AsMap;
    Recovery.ApplyLastBatch(c.batches, ops);
    OverlaidUpdates(AsMap(c.base.entries), ApplyBatches(c.batches), ops);
  }

  lemma NoBatch(m: map<Bytes, Bytes>, ops: seq<Op>)
    ensures ops == [] ==> Updated(m, ops) == m
  {
  }

  lemma LengthWithBatch(d: Digests, c: Content, ops: seq<Op>)
    ensures |LogBytes(d, WithBatch(c, ops).batches)| == |LogBytes(d, c.batches)| + Log.HEADER_SIZE + |Payload(ops)|
  {
    hide LogBytes, Payload, RecordHeader;
    LogGrows(d, c.batches, ops);
  }

  /** A committed batch updates the map and lengthens the file by its record, behind the Base. */
  lemma CommitSeen(d: Digests, disk: Disk, disk': Disk, sb: Superblock, c: Content, c': Content, ops: seq<Op>)
    requires Ready(d, disk, sb, c) && Ready(d, disk', sb, c')
    requires c' == if ops == [] then c else WithBatch(c, ops)
    ensures Meaning(c') == Updated(Meaning(c), ops)
    ensures |Image(disk')| == |Image(disk)| + if ops == [] then 0 else Log.HEADER_SIZE + |Payload(ops)|
    ensures ops != [] ==> sb.logStart < |Image(disk')|
  {
    hide Ready, Image, Meaning, Updated, WithBatch, Payload, LogBytes;
    LengthOf(d, disk, sb, c);
    LengthOf(d, disk', sb, c');
    LengthWithBatch(d, c, ops);
    BatchMeaning(c, ops);
    NoBatch(Meaning(c), ops);
  }

  /** Two healthy handles on the same root and content look alike. */
  lemma SameState(h: Handle, g: Handle)
    requires h.Valid() && g.Valid() && h.state == g.state == Healthy && h.d == g.d
    requires h.root == g.root && h.content == g.content
    ensures StateOf(h) == StateOf(g)
  {
    hide Serves, Ready, Settled, BackedBy, Standing, Told, Image, Meaning, LogBytes;
    LengthOf(h.d, h.file.disk, h.root, h.content);
    LengthOf(g.d, g.file.disk, g.root, g.content);
  }

  /** A committed batch of new keys costs exactly its keys and its values below a mebibyte. */
  method CommitFresh(h: Handle, ops: seq<Op>) returns (r: Result)
    requires h.Valid() && Staged(ops)
    requires forall i :: 0 <= i < |ops| ==> ops[i].key !in ApplyBatches(h.content.batches)
    modifies h`state, h`content, h.file, h.overlay
    ensures h.Valid()
    ensures old(h.state) == Healthy ==> r == Err(Io) || r == Verdict(ops, old(h.file.Length()), h.maxBytes)
    ensures r.Ok? ==> h.overlay.memory == old(h.overlay.memory) + Owing(ops)
  {
    hide Serves, Ready, Settled, BackedBy, Standing, Told, Image, Meaning, Owing, Throughout, ApplyBatches, Loggable,
         DistinctKeys;
    ghost var c, root, mapping, index, memory := h.content, h.root, h.mapping, h.overlay.index, h.overlay.memory;
    r := h.Commit(ops);
    if r.Ok? {
      NothingOwed();
      ChargeIsExact(h.d, root, mapping, c, index, memory);
      ChargeIsExact(h.d, h.root, h.mapping, h.content, h.overlay.index, h.overlay.memory);
      if ops != [] {
        Recovery.ApplyLastBatch(c.batches, ops);
        ChargeOfFreshBatch(ApplyBatches(c.batches), ops);
      }
    }
  }

  lemma NothingOwed()
    ensures Owing([]) == 0
  {
  }
}
