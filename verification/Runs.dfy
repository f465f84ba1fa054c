/** Whole lifetimes of a database file: commits, compactions, crashes and reopenings in any order. */
module Runs {
  import opened Bytes
  import opened Log
  import opened Overlay
  import opened Roots
  import opened Segment
  import opened Lookup
  import opened Listing
  import opened Device
  import opened Images
  import opened CrashSafety
  import opened Loss
  import opened Storage
  import opened Database
  import opened Opening
  import opened Visible

  // -------------------------------------------------------------- a new database

  /** `initialize_file`: an empty Base behind two pages, one of which holds the first root. */
  method InitialImage(d: Digests) returns (image: Bytes, ghost sb: Superblock, ghost b: Base)
    ensures RecoversTo(d, image, map[])
    ensures Holds(d, image, sb, Content(b, []), []) && Meaning(Content(b, [])) == map[]
    ensures |image| == sb.logStart == DATA_START + EntriesSize([]) && sb.generation == 1 && sb.baseOffset == DATA_START
  {
    hide RecoversTo, Segment.Valid, Head, Metadata, Data, RootOf, EncodePage, Patch, SegmentWritten, Holds, Meaning;
    EmptyBuildable();
    var built;
    built, b := BuildBase(d, DATA_START, 0, []);
    var w := built.value;
    BuiltRoot(d, 1, b, w);
    var size := |w.head| + |w.records| + |w.metadata|;
    sb := Superblock(1, DATA_START, size, w.slots, 0, DATA_START + size, w.checksum);
    var root := Superblock(1, DATA_START, size, w.slots, 0, DATA_START + size, w.checksum);
    var written := SegmentWritten(Zeros(DATA_START), DATA_START, w.head, w.records, w.metadata);
    image := Patch(written, PageOf(1) * PAGE_SIZE, EncodePage(d, root));
    InitialHolds(d, b, w, root);
    EmptyContent(d, Content(b, []));
    HeldOpens(d, image, sb, Content(b, []), []);
  }

  lemma EmptyBuildable()
    ensures SlotCount(0) == Some(0) && RecordsBytes([]) == []
    ensures DATA_START + SegmentSize(RecordsStart(0)) < U64_LIMIT
    ensures AsMap([]) == map[]
  {
  }

  lemma InitialHolds(d: Digests, b: Base, w: Written, sb: Superblock)
    requires Pieces(d, b, w, sb) && sb.generation == 1 && sb.baseOffset == DATA_START
    ensures var written := SegmentWritten(Zeros(DATA_START), DATA_START, w.head, w.records, w.metadata);
            var image := Patch(written, PageOf(1) * PAGE_SIZE, EncodePage(d, sb));
            Holds(d, image, sb, Content(b, []), []) && |image| == sb.logStart
  {
    PiecesFacts(d, b, w, sb);
    hide Segment.Valid, Head, Metadata, Data, Size, RecordsBytes, EncodePage, Patch, SegmentWritten, Stored,
         RootAt, OnlyPage;
    var zeros := Zeros(DATA_START);
    var written := SegmentWritten(zeros, DATA_START, w.head, w.records, w.metadata);
    StagedIsStored(d, zeros, 1, b);
    PagePatched(written, 1, EncodePage(d, sb));
    var image := Patch(written, PAGE_SIZE, EncodePage(d, sb));
    StoredAcrossPages(d, written, image, 1, sb, Content(b, []), []);
    OtherPageSame(d, written, image, 1);
    RootPatched(d, written, 1, sb);
    FrontKept(zeros, w.head, w.records, w.metadata);
    BlankPage(d, written);
    SameLength(written, image);
  }

  lemma SameLength(image: Bytes, other: Bytes)
    requires OnlyPage(image, other, 1)
    ensures |other| == |image|
  {
  }

  /** Writing behind the pages leaves the pages as they were. */
  lemma FrontKept(zeros: Bytes, head: Bytes, records: Bytes, metadata: Bytes)
    requires zeros == Zeros(DATA_START)
    ensures var r := SegmentWritten(zeros, DATA_START, head, records, metadata);
            |r| >= DATA_START && r[..DATA_START] == zeros
  {
    hide Zeros;
    var a := Patch(zeros, DATA_START + |head|, records);
    PatchKeeps(zeros, DATA_START + |head|, records, 0, DATA_START);
    var b := Patch(a, DATA_START, head);
    PatchKeeps(a, DATA_START, head, 0, DATA_START);
    PatchKeeps(b, DATA_START + |head| + |records|, metadata, 0, DATA_START);
  }

  lemma BlankPage(d: Digests, image: Bytes)
    requires DATA_START <= |image| && image[..DATA_START] == Zeros(DATA_START)
    ensures RootAt(d, image, 0).Invalid?
  {
    var page := image[0..PAGE_SIZE];
    assert page[0] == image[..DATA_START][0] == 0;
    assert page[..8][0] == 0;
  }

  // ------------------------------------------------------------- what a run means

  /** What the run asks of the database. A restart is a close or a crash, and a reopening. */
  datatype Action = Submit(ops: seq<Op>) | Rebuild | Restart

  /** How the machine stops during an action: not at all, keeping a prefix of what is unsynced, or losing any of it. */
  datatype Death = Lives | Stops | Loses

  /** What the caller learns: success, a refusal that changed nothing, or nothing certain. */
  datatype Outcome = Acked | Rejected | Uncertain

  /** A caller that dies learns nothing; an I/O failure leaves the outcome open; other errors change nothing. */
  function OutcomeOf(r: Result, death: Death): Outcome {
    if !death.Lives? then Uncertain
    else if r.Ok? then Acked
    else if r.error == Io then Uncertain
    else Outcome.Rejected
  }

  /** The plain map after applying the marked batches in order. */
  function Replay(script: seq<Action>, applied: seq<bool>): map<Bytes, Bytes>
    requires |applied| <= |script|
  {
    if applied == [] then map[]
    else
      var n := |applied| - 1;
      var before := Replay(script, applied[..n]);
      if applied[n] && script[n].Submit? then Updated(before, script[n].ops) else before
  }

  /** An acknowledged batch is applied, a rejected one is not; the others are applied whole or not at all. */
  ghost predicate Consistent(script: seq<Action>, outcomes: seq<Outcome>, applied: seq<bool>) {
    && |outcomes| == |applied| <= |script|
    && forall i :: 0 <= i < |outcomes| ==>
         (outcomes[i].Acked? ==> applied[i]) && (outcomes[i].Rejected? ==> !applied[i])
  }

  /** The handle does not outlive this action. */
  predicate Ends(script: seq<Action>, deaths: nat -> Death, i: nat)
    requires i < |script|
  {
    script[i].Restart? || !deaths(i).Lives?
  }

  /** The batch of this action was found in the file although nobody was told. */
  ghost predicate FoundLater(script: seq<Action>, outcomes: seq<Outcome>, applied: seq<bool>, i: nat)
    requires i < |outcomes| == |applied| <= |script|
  {
    script[i].Submit? && outcomes[i].Uncertain? && applied[i]
  }

  ghost predicate EndsBetween(script: seq<Action>, deaths: nat -> Death, i: nat, j: nat)
    requires i <= j <= |script|
  {
    exists k :: i <= k < j && Ends(script, deaths, k)
  }

  /** Each handle leaves at most one undecided batch behind: between two that were found a handle ended. */
  ghost predicate OnePerLife(script: seq<Action>, deaths: nat -> Death, outcomes: seq<Outcome>, applied: seq<bool>)
    requires |outcomes| == |applied| <= |script|
  {
    forall i, j ::
      && 0 <= i < j < |outcomes|
      && FoundLater(script, outcomes, applied, i) && FoundLater(script, outcomes, applied, j) ==>
      EndsBetween(script, deaths, i, j)
  }

  ghost predicate Faulty(plan: nat -> bool) {
    exists n :: plan(n)
  }

  /** Nothing stays uncertain without a death or a failing system call. */
  ghost predicate Excused(script: seq<Action>, deaths: nat -> Death, plan: nat -> bool, outcomes: seq<Outcome>) {
    && |outcomes| <= |script|
    && forall i :: 0 <= i < |outcomes| && outcomes[i].Uncertain? ==> Ends(script, deaths, i) || Faulty(plan)
  }

  // ------------------------------------------------------------ undisturbed runs

  /** A new database. */
  function Fresh(): State {
    State(map[], DATA_START + EntriesSize([]), true, 1)
  }

  /** What an action does when nothing disturbs it. */
  ghost function Step(s: State, action: Action, limit: nat): State {
    match action
    case Submit(ops) => Committed(s, ops, limit)
    case Rebuild => if s.generation + 2 < U64_LIMIT then Compacted(s, limit) else s
    case Restart => s
  }

  /** What its caller is then told. */
  ghost function Foreseen(s: State, action: Action, limit: nat): Outcome {
    match action
    case Submit(ops) => if Verdict(ops, s.length, limit).Ok? then Acked else Outcome.Rejected
    case Rebuild =>
      if s.generation + 2 < U64_LIMIT && CompactVerdict(s.m, s.compact, s.length, limit).Ok? then Acked
      else Outcome.Rejected
    case Restart => Acked
  }

  ghost function Expected(s: State, script: seq<Action>, limit: nat): State {
    if script == [] then s
    else
      var n := |script| - 1;
      Step(Expected(s, script[..n], limit), script[n], limit)
  }

  /** No system call fails and nothing stops the machine during the first `n` actions. */
  ghost predicate Calm(deaths: nat -> Death, plan: nat -> bool, n: nat) {
    !Faulty(plan) && forall i: nat :: i < n ==> deaths(i).Lives?
  }

  /** As long as nothing disturbs the run, every caller is told what the plain states foresee. */
  ghost predicate Foretold(script: seq<Action>, deaths: nat -> Death, plan: nat -> bool, outcomes: seq<Outcome>,
                           limit: nat) {
    && |outcomes| <= |script|
    && forall k: nat :: k < |outcomes| && Calm(deaths, plan, k + 1) ==>
         outcomes[k] == Foreseen(Expected(Fresh(), script[..k], limit), script[k], limit)
  }

  lemma ForetoldMore(script: seq<Action>, deaths: nat -> Death, plan: nat -> bool, outcomes: seq<Outcome>,
                     limit: nat, outcome: Outcome)
    requires Foretold(script, deaths, plan, outcomes, limit) && |outcomes| < |script|
    requires var n := |outcomes|;
             Calm(deaths, plan, n + 1) ==>
               outcome == Foreseen(Expected(Fresh(), script[..n], limit), script[n], limit)
    ensures Foretold(script, deaths, plan, outcomes + [outcome], limit)
  {
    hide Expected, Foreseen, Calm, Fresh;
  }

  lemma ExpectedMore(s: State, script: seq<Action>, n: nat, limit: nat)
    requires n < |script|
    ensures Expected(s, script[..n + 1], limit) == Step(Expected(s, script[..n], limit), script[n], limit)
  {
    hide Step;
    assert script[..n + 1][..n] == script[..n];
  }

  lemma CalmLess(deaths: nat -> Death, plan: nat -> bool, n: nat, k: nat)
    requires n <= k
    ensures Calm(deaths, plan, k) ==> Calm(deaths, plan, n)
  {
    hide Faulty;
  }

  lemma CalmBefore(deaths: nat -> Death, plan: nat -> bool, n: nat)
    ensures Calm(deaths, plan, n + 1) <==> Calm(deaths, plan, n) && deaths(n).Lives?
    ensures Calm(deaths, plan, n) ==> !Faulty(plan)
  {
    hide Faulty;
  }

  /** Learning later that an undecided batch did reach the file. */
  lemma {:induction false} LateBatch(script: seq<Action>, applied: seq<bool>, j: nat)
    requires |applied| <= |script| && j < |applied| && script[j].Submit?
    requires forall k :: j <= k < |applied| ==> !applied[k] || !script[k].Submit?
    ensures Replay(script, applied[j := true]) == Updated(Replay(script, applied), script[j].ops)
  {
    hide Updated;
    var n := |applied| - 1;
    if j < n {
      LateBatch(script, applied[..n], j);
      assert applied[j := true][..n] == applied[..n][j := true];
    } else {
      assert applied[j := true][..n] == applied[..n];
    }
  }

  // ---------------------------------------------------------------- one handle's life

  function Alternative(m: map<Bytes, Bytes>, maybe: Option<seq<Op>>): map<Bytes, Bytes> {
    if maybe.Some? then Updated(m, maybe.value) else m
  }

  /**
   * A crash at this instant recovers the map, or the map with the undecided batch, within the size
   * limit; a crash that loses bytes out of order does so or is noticed. All that is pending is known.
   */
  ghost predicate Recoverable(d: Digests, t: Moment, limit: nat, m: map<Bytes, Bytes>, maybe: Option<seq<Op>>) {
    && Known(d, t)
    && Survives(d, t, m, Alternative(m, maybe))
    && NeverLies(d, t, m, Alternative(m, maybe))
    && Reach(t.disk) <= limit
  }

  /** The handle serves the map; a crash now also allows for the undecided batch. */
  ghost predicate Live(h: Handle, m: map<Bytes, Bytes>, maybe: Option<seq<Op>>)
    reads h, h.file, h.overlay
  {
    && h.Valid() && h.views == [] && h.file.Logged()
    && h.Contents() == m
    && (maybe.Some? ==> h.state != Healthy)
    && (h.state != Healthy ==> Faulty(h.file.plan))
    && Recoverable(h.d, Moment(h.file.disk, h.file.roots), h.maxBytes, m, maybe)
  }

  lemma MoreAllowed(d: Digests, t: Moment, limit: nat, m: map<Bytes, Bytes>, maybe: Option<seq<Op>>)
    requires Recoverable(d, t, limit, m, None)
    ensures Recoverable(d, t, limit, m, maybe)
  {
    hide RecoversTo, GenuinePages, GenuineTail, Opens, CrashesTo, LosesTo, Updated, Reach, Known;
  }

  lemma ReadyRecoverable(d: Digests, disk: Disk, roots: set<Superblock>, sb: Superblock, c: Content, limit: nat)
    requires Ready(d, disk, sb, c) && |Image(disk)| <= limit
    ensures Recoverable(d, Moment(disk, roots), limit, Meaning(c), None)
  {
    hide *;
    var t := Moment(disk, roots);
    ReadySurvivesLoss(d, t, sb, c);
    LossImpliesOrdered(d, t, Meaning(c));
    LossNeverLiesEither(d, t, Meaning(c));
    ReadyReach(d, disk, sb, c);
    TidyReady(d, disk, sb, c);
    TidyIsKnown(d, t);
    RecoverableFrom(d, t, limit, Meaning(c));
  }

  lemma RecoverableFrom(d: Digests, t: Moment, limit: nat, m: map<Bytes, Bytes>)
    requires Survives(d, t, m, m) && NeverLies(d, t, m, m) && Reach(t.disk) <= limit && Known(d, t)
    ensures Recoverable(d, t, limit, m, None)
  {
    hide Survives, NeverLies, Reach, Known;
  }

  lemma UpheldRecoverable(d: Digests, trail: seq<Moment>, from: nat, claim: Claim, c: Content, ops: seq<Op>, i: nat)
    requires Throughout(d, trail, from, claim) && from <= i < |trail|
    requires claim.a == Meaning(c) && claim.b == Meaning(WithBatch(c, ops))
    ensures Recoverable(d, trail[i], claim.limit, Meaning(c), Some(ops))
  {
    hide Survives, NeverLies, Meaning, Updated, Reach, Image, Tidy, Known;
    assert Upholds(d, trail[i], claim);
    TidyIsKnown(d, trail[i]);
    BatchMeaning(c, ops);
  }

  lemma AllUpheld(d: Digests, trail: seq<Moment>, from: nat, claim: Claim, c: Content, ops: seq<Op>)
    requires Throughout(d, trail, from, claim) && claim.a == Meaning(c) && claim.b == Meaning(WithBatch(c, ops))
    ensures forall i :: from <= i < |trail| ==> Recoverable(d, trail[i], claim.limit, Meaning(c), Some(ops))
  {
    hide Throughout, Recoverable, Meaning, WithBatch;
    forall i | from <= i < |trail|
      ensures Recoverable(d, trail[i], claim.limit, Meaning(c), Some(ops))
    {
      UpheldRecoverable(d, trail, from, claim, c, ops, i);
    }
  }

  /** Submitting a batch, seen from the whole run. */
  method SubmitStep(h: Handle, ops: seq<Op>, ghost m: map<Bytes, Bytes>, ghost maybe: Option<seq<Op>>)
    returns (r: Result)
    requires Live(h, m, maybe) && Staged(ops)
    modifies h`state, h`content, h.file, h.overlay
    ensures r.Ok? ==> maybe.None? && Live(h, Updated(m, ops), None)
    ensures r == Err(Io) ==> maybe.None? && Live(h, m, Some(ops)) && Faulty(h.file.plan)
    ensures r.Err? && r.error != Io ==> Live(h, m, maybe)
    ensures old(h.state) == Healthy && r != Err(Io) ==>
              h.state == Healthy && r == Verdict(ops, old(h.file.Length()), h.maxBytes) &&
              StateOf(h) == Committed(old(StateOf(h)), ops, h.maxBytes)
    ensures old(h.file.trail) <= h.file.trail
    ensures forall i :: |old(h.file.trail)| - 1 <= i < |h.file.trail| ==>
              Recoverable(h.d, h.file.trail[i], h.maxBytes, m, if maybe.Some? then maybe else Some(ops))
  {
    hide Recoverable, Throughout, Serves, Ready, Settled, BackedBy, Standing, Told, Image, Meaning, WithBatch,
         Updated, Staged;
    ghost var before, from, content, disk := h.file.trail, |h.file.trail|, h.content, h.file.disk;
    ghost var claim := Claim(Image(h.file.disk), h.maxBytes, h.file.roots, Meaning(content),
                             Meaning(WithBatch(content, ops)));
    if maybe.None? {
      MoreAllowed(h.d, before[from - 1], h.maxBytes, m, Some(ops));
    }
    r := h.Commit(ops);
    BatchMeaning(content, ops);
    AllUpheld(h.d, h.file.trail, from, claim, content, ops);
    if r.Ok? {
      CommitSeen(h.d, disk, h.file.disk, h.root, content, h.content, ops);
      ReadyRecoverable(h.d, h.file.disk, h.file.roots, h.root, h.content, h.maxBytes);
    }
  }

  lemma SteadyRecoverable(d: Digests, trail: seq<Moment>, from: nat, course: Course, i: nat)
    requires AllSteady(d, trail, from, course) && from <= i < |trail|
    ensures Recoverable(d, trail[i], course.limit, course.m, None)
  {
    hide Survives, SurvivesLoss, NeverLies, Reach, Known;
    assert Steady(d, trail[i], course);
  }

  /** Compacting, seen from the whole run: the map never changes. */
  method RebuildStep(h: Handle, ghost m: map<Bytes, Bytes>, ghost maybe: Option<seq<Op>>) returns (r: Result)
    requires Live(h, m, maybe) && h.root.generation + 2 < U64_LIMIT
    modifies h`state, h`root, h`mapping, h`content, h.file, h.overlay
    ensures Live(h, m, maybe) && (r == Err(Io) ==> Faulty(h.file.plan))
    ensures old(h.state) == Healthy && r != Err(Io) ==>
              && h.state == Healthy && StateOf(h) == Compacted(old(StateOf(h)), h.maxBytes)
              && var s := old(StateOf(h)); r == CompactVerdict(s.m, s.compact, s.length, h.maxBytes)
    ensures old(h.file.trail) <= h.file.trail
    ensures forall i :: |old(h.file.trail)| - 1 <= i < |h.file.trail| ==>
              Recoverable(h.d, h.file.trail[i], h.maxBytes, m, maybe)
  {
    hide Recoverable, AllSteady, Serves, Ready, Settled, BackedBy, Standing, Told, Image, Meaning, CompactVerdict,
         MapSize, EntriesSize, AsMap, Distinct, SlotCount;
    ghost var from, roots := |h.file.trail|, h.file.roots;
    if h.state == Healthy && AlreadyCompact(h.root, h.file.Length()) {
      CompactLength(h.d, h.file.disk, h.root, h.mapping, h.content, h.overlay.index, h.overlay.memory);
    }
    r := h.Compact();
    forall i | from <= i < |h.file.trail|
      ensures Recoverable(h.d, h.file.trail[i], h.maxBytes, m, maybe)
    {
      SteadyRecoverable(h.d, h.file.trail, from, Course(roots, h.maxBytes, m), i);
      MoreAllowed(h.d, h.file.trail[i], h.maxBytes, m, maybe);
    }
    if h.state == Healthy {
      ReadyRecoverable(h.d, h.file.disk, h.file.roots, h.root, h.content, h.maxBytes);
      MoreAllowed(h.d, Moment(h.file.disk, h.file.roots), h.maxBytes, m, maybe);
    }
  }

  // ------------------------------------------------------------------- reopening

  lemma Witness(d: Digests, image: Bytes, m: map<Bytes, Bytes>) returns (sb: Superblock, c: Content, tail: Bytes)
    requires RecoversTo(d, image, m)
    ensures Holds(d, image, sb, c, tail) && Meaning(c) == m
  {
    hide Holds, OpensAs, Meaning;
    assert Restores(d, image, m);
    sb, c, tail :| Holds(d, image, sb, c, tail) && Meaning(c) == m;
  }

  /** A crash of the device: the pending operations reach the medium in order, cut at an arbitrary byte. */
  method Stop(disk: Disk) returns (image: Bytes)
    ensures CrashesTo(disk, image)
  {
    var n: nat, k: nat :| 0 <= n && 0 <= k;
    image := Image(disk);
    if n < |disk.pending| {
      image := Cut(disk, n, k);
    }
  }

  /** The same with any of the unsynced bytes lost: each byte is the durable one or a pending one. */
  method Lose(disk: Disk) returns (image: Bytes)
    ensures LosesTo(disk, image)
  {
    hide Longest, Shortest;
    LengthsMeet(disk);
    var len: nat :| Shortest(|disk.durable|, disk.pending) <= len <= Longest(|disk.durable|, disk.pending);
    image := [];
    while |image| < len
      invariant |image| <= len
      invariant forall i :: 0 <= i < |image| ==> MayHold(disk, i, image[i])
    {
      var i, j := |image|, *;
      var b := ByteAt(disk.durable, i);
      if 0 <= j < |disk.pending| {
        var io := disk.pending[j];
        if io.Write? && io.offset <= i < io.offset + |io.data| {
          b := io.data[i - io.offset];
          assert Covers(disk.pending[j], i, b);
        }
      }
      image := image + [b];
    }
  }

  lemma LengthsMeet(disk: Disk)
    ensures Shortest(|disk.durable|, disk.pending) <= Longest(|disk.durable|, disk.pending)
  {
  }

  /** What a crash left breaks a checksum hypothesis: some page or record passes that was never written. */
  ghost predicate Forged(d: Digests, t: Moment, image: Bytes) {
    LosesTo(t.disk, image) && !(GenuinePages(d, t.disk.durable, image, t.roots) && GenuineTail(d, t.disk, image))
  }

  /** With nothing pending a crash changes nothing, and nothing can be forged. */
  lemma NothingForged(d: Digests, t: Moment, image: Bytes)
    requires t.disk.pending == [] && LosesTo(t.disk, image)
    ensures !Forged(d, t, image)
  {
    hide RootAt, ReadRecord;
    NothingPending(t.disk, image);
    EmptyTail(d, t.disk, image);
  }

  lemma EmptyTail(d: Digests, disk: Disk, image: Bytes)
    requires |image| <= |disk.durable|
    ensures GenuineTail(d, disk, image)
  {
  }

  /** Whatever a healthy handle has pending, no crash of its file is forged, and none goes unopened. */
  lemma ReadyNotForged(d: Digests, t: Moment, sb: Superblock, c: Content, image: Bytes)
    requires Ready(d, t.disk, sb, c) && LosesTo(t.disk, image)
    ensures GenuinePages(d, t.disk.durable, image, t.roots) && GenuineTail(d, t.disk, image) && Opens(d, image)
  {
    hide *;
    TidyReady(d, t.disk, sb, c);
    TidyIdle(d, t.disk);
    IdleIsGenuine(d, t.disk, image, t.roots);
    ReadyAfterLoss(d, t.disk, sb, c, image);
    EmptyTail(d, t.disk, image);
    HeldIsOpen(d, image, sb, c, []);
  }

  lemma TidyIdle(d: Digests, disk: Disk)
    requires Tidy(d, disk)
    ensures Idle(disk)
  {
  }

  lemma HeldIsOpen(d: Digests, image: Bytes, sb: Superblock, c: Content, tail: Bytes)
    requires Holds(d, image, sb, c, tail)
    ensures Opens(d, image)
  {
    hide Stored, Newest, Latest, AcceptsMetadata, Scan, LogBytes, BaseRange, Reads, Meaning;
    StoredOpens(d, image, sb, c, tail);
    NewestIsLatest(d, image, sb);
  }

  /** A loss out of order that opening notices: the log is refused. */
  ghost predicate Noticed(d: Digests, t: Moment, image: Bytes) {
    LosesTo(t.disk, image) && !Opens(d, image)
  }

  lemma LossReach(d: Digests, t: Moment, image: Bytes, limit: nat, m: map<Bytes, Bytes>, maybe: Option<seq<Op>>)
    requires Recoverable(d, t, limit, m, maybe) && LosesTo(t.disk, image)
    requires GenuinePages(d, t.disk.durable, image, t.roots) && GenuineTail(d, t.disk, image) && Opens(d, image)
    ensures |image| <= limit && (RecoversTo(d, image, m) || RecoversTo(d, image, Alternative(m, maybe)))
  {
    hide RecoversTo, GenuinePages, GenuineTail, Opens, Alternative, MayHold;
  }

  lemma StopReach(d: Digests, t: Moment, image: Bytes, limit: nat, m: map<Bytes, Bytes>, maybe: Option<seq<Op>>)
    requires Recoverable(d, t, limit, m, maybe) && CrashesTo(t.disk, image)
    requires GenuinePages(d, t.disk.durable, image, t.roots)
    ensures LosesTo(t.disk, image)
    ensures |image| <= limit && (RecoversTo(d, image, m) || RecoversTo(d, image, Alternative(m, maybe)))
  {
    hide RecoversTo, GenuinePages, CrashesTo, Alternative;
    OrderedIsLoss(t.disk, image);
  }

  /** A handle again; or the image that ended the run, forged or noticed; or a failed system call. */
  datatype Reopened =
    | Back(handle: Handle)
    | ForgedImage(image: Bytes)
    | NoticedImage(image: Bytes)
    | NotOpened(error: Error)

  /**
   * The machine stops at the given instant and the file is opened again. Unless the system fails or a
   * checksum hypothesis does, this yields a handle on the map or on the map with the undecided batch;
   * only a loss out of order may instead be noticed.
   */
  method Reopen(d: Digests, t: Moment, maxBytes: U64, death: Death, plan: nat -> bool, clock: nat,
                ghost m: map<Bytes, Bytes>, ghost maybe: Option<seq<Op>>, ghost known: Option<(Superblock, Content)>)
    returns (r: Reopened, ghost kept: bool)
    requires Recoverable(d, t, maxBytes, m, maybe)
    requires known.Some? ==> Ready(d, t.disk, known.value.0, known.value.1) && Meaning(known.value.1) == m
    ensures r.ForgedImage? ==> Forged(d, t, r.image) && t.disk.pending != []
    ensures r.NoticedImage? ==> death.Loses? && Noticed(d, t, r.image)
    ensures r.NotOpened? ==> r.error == Io && Faulty(plan)
    ensures known.Some? ==> r.Back? || r.NotOpened?
    ensures r.Back? ==> fresh(r.handle) && fresh(r.handle.file) && fresh(r.handle.overlay) && r.handle.file.plan == plan
    ensures r.Back? ==> r.handle.d == d && r.handle.maxBytes == maxBytes && r.handle.state == Healthy
    ensures r.Back? ==> Live(r.handle, if kept then Alternative(m, maybe) else m, None)
    ensures r.Back? && known.Some? ==> !kept && r.handle.root == known.value.0 && r.handle.content == known.value.1
  {
    hide Recoverable, CrashesTo, LosesTo, GenuinePages, GenuineTail, Opens, RecoversTo, Holds, Openable, Serves,
         Ready, Settled, BackedBy, Standing, Told, Image, Meaning, PageRoots, SurvivesLoss, Reach, Updated;
    kept := false;
    var image := Stop(t.disk);
    OrderedIsLoss(t.disk, image);
    if death.Loses? {
      image := Lose(t.disk);
    }
    if known.Some? {
      ReadyNotForged(d, t, known.value.0, known.value.1, image);
    }
    if t.disk.pending == [] {
      NothingForged(d, t, image);
    }
    if !GenuinePages(d, t.disk.durable, image, t.roots) || (death.Loses? && !GenuineTail(d, t.disk, image)) {
      return ForgedImage(image), kept;
    }
    if death.Loses? && !Opens(d, image) {
      return NoticedImage(image), kept;
    }
    ghost var sb, c, tail;
    if known.Some? {
      sb, c, tail := known.value.0, known.value.1, [];
      ReadyAfterLoss(d, t.disk, sb, c, image);
      ReadyWithin(d, t, maxBytes, m, maybe, image);
    } else {
      if death.Loses? {
        LossReach(d, t, image, maxBytes, m, maybe);
      } else {
        StopReach(d, t, image, maxBytes, m, maybe);
      }
      kept := !RecoversTo(d, image, m);
      sb, c, tail := Witness(d, image, if kept then Alternative(m, maybe) else m);
    }
    r := OpenImage(d, image, maxBytes, plan, clock, sb, c, tail);
  }

  lemma ReadyWithin(d: Digests, t: Moment, limit: nat, m: map<Bytes, Bytes>, maybe: Option<seq<Op>>, image: Bytes)
    requires Recoverable(d, t, limit, m, maybe) && LosesTo(t.disk, image)
    ensures |image| <= limit
  {
    hide RecoversTo, GenuinePages, GenuineTail, Opens, Alternative, MayHold, Known;
  }

  /** Opens a file with these bytes, in either mode. */
  method OpenImage(d: Digests, image: Bytes, maxBytes: U64, plan: nat -> bool, clock: nat, ghost sb: Superblock,
                   ghost c: Content, ghost tail: Bytes)
    returns (r: Reopened)
    requires Holds(d, image, sb, c, tail) && |image| <= maxBytes
    ensures r.Back? || r.NotOpened?
    ensures r.NotOpened? ==> r.error == Io && Faulty(plan)
    ensures r.Back? ==> fresh(r.handle) && fresh(r.handle.file) && fresh(r.handle.overlay) && r.handle.file.plan == plan
    ensures r.Back? ==> r.handle.d == d && r.handle.maxBytes == maxBytes && r.handle.state == Healthy
    ensures r.Back? ==> Live(r.handle, Meaning(c), None) && r.handle.root == sb && r.handle.content == c
  {
    hide Recoverable, Holds, Openable, Serves, Ready, Settled, BackedBy, Standing, Told, Image, Meaning, PageRoots,
         SurvivesLoss, Reach;
    var file := new File(image, PageRoots(d, image), plan, clock);
    var full: bool := *;
    var mode := if full then Full else OnRead;
    HeldIsOpenable(d, image, sb, c, tail, maxBytes, mode);
    var result := Open(d, file, maxBytes, mode, sb, c, tail);
    if result.OpenFailed? {
      return NotOpened(result.error);
    }
    ReadyRecoverable(d, file.disk, file.roots, sb, c, maxBytes);
    r := Back(result.handle);
  }

  // -------------------------------------------------------------------- whole runs

  /** Every batch found later belongs to a handle that ended before action `n`. */
  ghost predicate LivesOver(script: seq<Action>, deaths: nat -> Death, outcomes: seq<Outcome>, applied: seq<bool>,
                            n: nat) {
    && |outcomes| == |applied| <= |script| && n <= |outcomes|
    && forall i :: 0 <= i < n && FoundLater(script, outcomes, applied, i) ==> EndsBetween(script, deaths, i, n)
  }

  /**
   * The undecided batch, if any, is that of action `at`; it is the first of its handle, and nothing was
   * applied since.
   */
  ghost predicate Undecided(script: seq<Action>, deaths: nat -> Death, outcomes: seq<Outcome>, applied: seq<bool>,
                            at: Option<nat>, maybe: Option<seq<Op>>) {
    && (at.None? <==> maybe.None?)
    && (at.Some? ==>
          && at.value < |applied| <= |script| && |outcomes| == |applied|
          && script[at.value].Submit? && script[at.value].ops == maybe.value && outcomes[at.value].Uncertain?
          && LivesOver(script, deaths, outcomes, applied, at.value)
          && forall k :: at.value <= k < |applied| ==> !applied[k] || !script[k].Submit?)
  }

  /** Everything a run keeps true between two actions. */
  ghost predicate OnCourse(script: seq<Action>, deaths: nat -> Death, outcomes: seq<Outcome>, applied: seq<bool>,
                           at: Option<nat>, maybe: Option<seq<Op>>, m: map<Bytes, Bytes>) {
    && Consistent(script, outcomes, applied)
    && Replay(script, applied) == m
    && Undecided(script, deaths, outcomes, applied, at, maybe)
    && LivesOver(script, deaths, outcomes, applied, |outcomes|)
    && OnePerLife(script, deaths, outcomes, applied)
  }

  lemma EndsLater(script: seq<Action>, deaths: nat -> Death, i: nat, j: nat, k: nat)
    requires i <= j <= k <= |script| && EndsBetween(script, deaths, i, j)
    ensures EndsBetween(script, deaths, i, k)
  {
  }

  /** Appending an outcome that was not found later changes nothing about those that were. */
  lemma LivesMore(script: seq<Action>, deaths: nat -> Death, outcomes: seq<Outcome>, applied: seq<bool>,
                  outcome: Outcome, now: bool, n: nat)
    requires LivesOver(script, deaths, outcomes, applied, n) && |applied| < |script| && (outcome.Acked? || !now)
    ensures LivesOver(script, deaths, outcomes + [outcome], applied + [now], n)
    ensures n == |outcomes| ==> LivesOver(script, deaths, outcomes + [outcome], applied + [now], n + 1)
  {
    hide EndsBetween;
    var outcomes', applied' := outcomes + [outcome], applied + [now];
    forall i | 0 <= i < n && FoundLater(script, outcomes', applied', i)
      ensures EndsBetween(script, deaths, i, n) && EndsBetween(script, deaths, i, n + 1)
    {
      assert FoundLater(script, outcomes, applied, i);
      EndsLater(script, deaths, i, n, n + 1);
    }
  }

  lemma OneMore(script: seq<Action>, deaths: nat -> Death, outcomes: seq<Outcome>, applied: seq<bool>,
                outcome: Outcome, now: bool)
    requires |outcomes| == |applied| < |script|
    requires OnePerLife(script, deaths, outcomes, applied) && (outcome.Acked? || !now)
    ensures OnePerLife(script, deaths, outcomes + [outcome], applied + [now])
  {
    hide EndsBetween;
    var outcomes', applied' := outcomes + [outcome], applied + [now];
    forall i, j |
      && 0 <= i < j < |outcomes'|
      && FoundLater(script, outcomes', applied', i) && FoundLater(script, outcomes', applied', j)
      ensures EndsBetween(script, deaths, i, j)
    {
      assert FoundLater(script, outcomes, applied, i) && FoundLater(script, outcomes, applied, j);
    }
  }

  /** One more action: a batch that was applied, or something that left the map alone. */
  lemma OnCourseMore(script: seq<Action>, deaths: nat -> Death, outcomes: seq<Outcome>, applied: seq<bool>,
                     at: Option<nat>, maybe: Option<seq<Op>>, m: map<Bytes, Bytes>, outcome: Outcome)
    requires OnCourse(script, deaths, outcomes, applied, at, maybe, m) && |applied| < |script|
    ensures var n, now := |applied|, outcome.Acked?;
            var outcomes', applied' := outcomes + [outcome], applied + [now];
            && (now && script[n].Submit? && at.None? ==>
                  OnCourse(script, deaths, outcomes', applied', None, None, Updated(m, script[n].ops)))
            && (!now || !script[n].Submit? ==> OnCourse(script, deaths, outcomes', applied', at, maybe, m))
            && (outcome.Uncertain? && script[n].Submit? ==>
                  OnCourse(script, deaths, outcomes', applied', Some(n), Some(script[n].ops), m))
  {
    hide Updated, LivesOver, OnePerLife;
    var now := outcome.Acked?;
    assert (applied + [now])[..|applied|] == applied;
    LivesMore(script, deaths, outcomes, applied, outcome, now, |outcomes|);
    OneMore(script, deaths, outcomes, applied, outcome, now);
    if at.Some? {
      LivesMore(script, deaths, outcomes, applied, outcome, now, at.value);
    }
  }

  /** The undecided batch turns out to be in the file. */
  lemma FoundNow(script: seq<Action>, deaths: nat -> Death, outcomes: seq<Outcome>, applied: seq<bool>, at: nat)
    requires |outcomes| == |applied| <= |script| && at < |outcomes| && Ends(script, deaths, |outcomes| - 1)
    requires LivesOver(script, deaths, outcomes, applied, |outcomes|) && OnePerLife(script, deaths, outcomes, applied)
    requires LivesOver(script, deaths, outcomes, applied, at)
    requires forall k :: at <= k < |applied| ==> !applied[k] || !script[k].Submit?
    ensures LivesOver(script, deaths, outcomes, applied[at := true], |outcomes|)
    ensures OnePerLife(script, deaths, outcomes, applied[at := true])
  {
    var applied', n := applied[at := true], |outcomes|;
    assert EndsBetween(script, deaths, at, n);
    hide EndsBetween;
    forall i | 0 <= i < n && FoundLater(script, outcomes, applied', i)
      ensures EndsBetween(script, deaths, i, n)
    {
      if i != at {
        assert FoundLater(script, outcomes, applied, i);
      }
    }
    forall i, j |
      0 <= i < j < n && FoundLater(script, outcomes, applied', i) && FoundLater(script, outcomes, applied', j)
      ensures EndsBetween(script, deaths, i, j)
    {
      if i != at {
        assert FoundLater(script, outcomes, applied, i);
        if j != at {
          assert FoundLater(script, outcomes, applied, j);
        }
      }
    }
  }

  /** A reopening decides the undecided batch. */
  lemma OnCourseDecided(script: seq<Action>, deaths: nat -> Death, outcomes: seq<Outcome>, applied: seq<bool>,
                        at: Option<nat>, maybe: Option<seq<Op>>, m: map<Bytes, Bytes>)
    requires OnCourse(script, deaths, outcomes, applied, at, maybe, m)
    requires 0 < |outcomes| <= |script| && Ends(script, deaths, |outcomes| - 1)
    ensures OnCourse(script, deaths, outcomes, applied, None, None, m)
    ensures at.Some? ==>
              at.value < |applied| &&
              OnCourse(script, deaths, outcomes, applied[at.value := true], None, None, Alternative(m, maybe))
    ensures at.None? ==> Alternative(m, maybe) == m
  {
    hide Updated, Replay, LivesOver, OnePerLife;
    if at.Some? {
      LateBatch(script, applied, at.value);
      FoundNow(script, deaths, outcomes, applied, at.value);
    }
  }

  lemma Beginning(script: seq<Action>, deaths: nat -> Death)
    ensures OnCourse(script, deaths, [], [], None, None, map[])
  {
  }

  lemma CourseHolds(script: seq<Action>, deaths: nat -> Death, outcomes: seq<Outcome>, applied: seq<bool>,
                    at: Option<nat>, maybe: Option<seq<Op>>, m: map<Bytes, Bytes>)
    requires OnCourse(script, deaths, outcomes, applied, at, maybe, m)
    ensures Consistent(script, outcomes, applied) && |outcomes| == |applied| <= |script|
    ensures OnePerLife(script, deaths, outcomes, applied) && Replay(script, applied) == m && (at.None? <==> maybe.None?)
  {
    hide Replay, LivesOver, OnePerLife;
  }

  /**
   * How a run ended: at the end of its script, or early. The limit was too small for an empty
   * database, a system call failed, a crash image broke a checksum hypothesis, or a loss out of order
   * was noticed.
   */
  datatype Ending = Complete | TooSmall | Failing | Forgery(t: Moment, image: Bytes) | Loss(t: Moment, image: Bytes)

  /** The machine stopped at an instant from which this map, or it and one undecided batch, is recoverable. */
  ghost predicate Instant(d: Digests, t: Moment, limit: nat, m: map<Bytes, Bytes>) {
    exists maybe :: Recoverable(d, t, limit, m, maybe)
  }

  /** An early end is never without its cause. */
  ghost predicate Justified(d: Digests, maxBytes: nat, plan: nat -> bool, m: map<Bytes, Bytes>, ending: Ending) {
    match ending
    case Complete => true
    case TooSmall => maxBytes < DATA_START + EntriesSize([])
    case Failing => Faulty(plan)
    case Forgery(t, image) => Instant(d, t, maxBytes, m) && Forged(d, t, image) && t.disk.pending != []
    case Loss(t, image) => Instant(d, t, maxBytes, m) && Noticed(d, t, image)
  }

  /** The machine stops at some instant of the last operation, and the file is opened again. */
  method StopDuring(h: Handle, from: nat, death: Death, ghost m: map<Bytes, Bytes>, ghost maybe: Option<seq<Op>>)
    returns (next: Option<Handle>, ending: Ending, ghost kept: bool)
    requires h.Valid() && h.file.Logged() && 0 < from <= |h.file.trail|
    requires forall i :: from - 1 <= i < |h.file.trail| ==> Recoverable(h.d, h.file.trail[i], h.maxBytes, m, maybe)
    ensures next.None? ==>
              && !ending.Complete? && !ending.TooSmall? && Justified(h.d, h.maxBytes, h.file.plan, m, ending)
              && (ending.Loss? ==> death.Loses?)
    ensures next.Some? ==> fresh(next.value) && fresh(next.value.file) && fresh(next.value.overlay)
    ensures next.Some? ==>
              next.value.d == h.d && next.value.maxBytes == h.maxBytes && next.value.file.plan == h.file.plan
    ensures next.Some? ==> Live(next.value, if kept then Alternative(m, maybe) else m, None)
    ensures h.state == Healthy && h.Contents() == m && from == |h.file.trail| ==>
              if next.Some? then next.value.state == Healthy && StateOf(next.value) == StateOf(h) else ending.Failing?
  {
    hide Recoverable, Alternative, Forged, Noticed, Faulty, Serves, Ready, Settled, BackedBy, Standing, Told, Image,
         Meaning, StateOf;
    var i: nat :| from - 1 <= i < |h.file.trail|;
    var t := h.file.trail[i];
    assert Instant(h.d, t, h.maxBytes, m);
    ghost var known :=
      if h.state == Healthy && h.Contents() == m && from == |h.file.trail| then Some((h.root, h.content)) else None;
    var r;
    r, kept := Reopen(h.d, t, h.maxBytes, death, h.file.plan, h.file.clock, m, maybe, known);
    match r {
      case Back(handle) =>
        next, ending := Some(handle), Complete;
        if known.Some? {
          SameState(h, handle);
        }
      case ForgedImage(image) => next, ending := None, Forgery(t, image);
      case NoticedImage(image) => next, ending := None, Loss(t, image);
      case NotOpened(_) => next, ending := None, Failing;
    }
  }

  /** Creates a database file and opens it. */
  method Create(d: Digests, maxBytes: U64, plan: nat -> bool) returns (h: Option<Handle>)
    ensures h.None? ==> Faulty(plan) || maxBytes < DATA_START + EntriesSize([])
    ensures h.Some? ==> fresh(h.value) && fresh(h.value.file) && fresh(h.value.overlay) && h.value.file.plan == plan
    ensures h.Some? ==>
              h.value.d == d && h.value.maxBytes == maxBytes && h.value.state == Healthy && Live(h.value, map[], None)
    ensures h.Some? ==> h.value.root.generation == 1 && h.value.root.baseOffset == DATA_START
    ensures h.Some? ==> h.value.file.Length() == h.value.root.logStart == DATA_START + EntriesSize([])
    ensures h.Some? ==> StateOf(h.value) == Fresh()
  {
    hide Holds, Meaning, RecoversTo, Recoverable, Serves, Ready, Settled, BackedBy, Standing, Told, Image, EntriesSize;
    var image, sb, b := InitialImage(d);
    if |image| > maxBytes {
      return None;
    }
    var r := OpenImage(d, image, maxBytes, plan, 0, sb, Content(b, []), []);
    if r.NotOpened? {
      return None;
    }
    EmptyLength(r.handle);
    h := Some(r.handle);
  }

  lemma EmptyLength(h: Handle)
    requires h.Valid() && h.state == Healthy && h.content.batches == []
    ensures h.file.Length() == h.root.logStart
  {
    hide Serves, Ready, Settled, BackedBy, Standing, Told, Image, LogBytes;
    LengthOf(h.d, h.file.disk, h.root, h.content);
    NoLog(h.d);
  }

  /** One action of a run: what it does to the handle, and what its caller is told. */
  method Perform(h: Handle, action: Action, death: Death, ghost m: map<Bytes, Bytes>, ghost maybe: Option<seq<Op>>)
    returns (outcome: Outcome)
    requires Live(h, m, maybe) && (action.Submit? ==> Staged(action.ops))
    modifies h, h.file, h.overlay
    ensures h.Valid() && h.file.Logged() && 0 < |old(h.file.trail)| && old(h.file.trail) <= h.file.trail
    ensures action.Restart? ==> h.file.trail == old(h.file.trail) && outcome.Acked?
    ensures outcome.Uncertain? ==> !death.Lives? || Faulty(h.file.plan)
    ensures action.Submit? && !death.Lives? ==> outcome.Uncertain?
    ensures outcome.Acked? && action.Submit? ==> maybe.None? && Live(h, Updated(m, action.ops), None)
    ensures death.Lives? && outcome.Uncertain? && action.Submit? ==> maybe.None? && Live(h, m, Some(action.ops))
    ensures outcome.Rejected? || !action.Submit? ==> Live(h, m, maybe)
    ensures forall i :: |old(h.file.trail)| - 1 <= i < |h.file.trail| ==>
              Recoverable(h.d, h.file.trail[i], h.maxBytes, m,
                          if maybe.None? && action.Submit? then Some(action.ops) else maybe)
    ensures death.Lives? && !Faulty(h.file.plan) ==>
              && outcome == Foreseen(old(StateOf(h)), action, h.maxBytes)
              && StateOf(h) == Step(old(StateOf(h)), action, h.maxBytes)
  {
    hide Live, Recoverable, Staged, Updated, Faulty, StateOf, Committed, Compacted, Verdict, CompactVerdict, Serves,
         Ready, Settled, BackedBy, Standing, Told, Image, Meaning;
    LiveParts(h, m, maybe);
    LastRecoverable(h, m, maybe);
    StateParts(h);
    match action {
      case Submit(ops) =>
        var r := SubmitStep(h, ops, m, maybe);
        outcome := OutcomeOf(r, death);
        if r.Ok? {
          LiveParts(h, Updated(m, ops), None);
        } else {
          LiveParts(h, m, if r.error == Io then Some(ops) else maybe);
        }
      case Rebuild =>
        outcome := Outcome.Rejected;
        if h.root.generation + 2 < U64_LIMIT {
          var r := RebuildStep(h, m, maybe);
          outcome := OutcomeOf(r, death);
          LiveParts(h, m, maybe);
        }
      case Restart =>
        outcome := Acked;
    }
  }

  /**
   * Any script of commits, compactions and restarts on a new database, where any system call may fail
   * and the machine may stop at any instant, in order at any byte or losing any unsynced bytes. The
   * listing at the end is the replay of the acknowledged batches and of at most one undecided batch
   * per handle, each wholly or not at all. Nothing is uncertain and no run ends early without cause.
   */
  method Run(d: Digests, maxBytes: U64, script: seq<Action>, deaths: nat -> Death, plan: nat -> bool)
    returns (outcomes: seq<Outcome>, ghost applied: seq<bool>, listing: Option<seq<Entry>>, ending: Ending)
    requires forall i :: 0 <= i < |script| && script[i].Submit? ==> Staged(script[i].ops)
    ensures Consistent(script, outcomes, applied) && OnePerLife(script, deaths, outcomes, applied)
    ensures Excused(script, deaths, plan, outcomes)
    ensures listing.Some? <==> ending.Complete?
    ensures ending.Complete? ==> |outcomes| == |script|
    ensures listing.Some? ==> Distinct(listing.value) && AsMap(listing.value) == Replay(script, applied)
    ensures Justified(d, maxBytes, plan, Replay(script, applied), ending)
    ensures ending.Loss? ==> 0 < |outcomes| && deaths(|outcomes| - 1).Loses?
    ensures ending.Forgery? ==> 0 < |outcomes| && (!deaths(|outcomes| - 1).Lives? || Faulty(plan))
    ensures ending.TooSmall? ==> outcomes == []
    ensures Calm(deaths, plan, |outcomes|) ==> ending.Complete? || ending.TooSmall?
    ensures Foretold(script, deaths, plan, outcomes, maxBytes)
    ensures Calm(deaths, plan, |script|) && DATA_START + EntriesSize([]) <= maxBytes ==>
              listing.Some? && AsMap(listing.value) == Expected(Fresh(), script, maxBytes).m
  {
    hide Live, Recoverable, Staged, OnCourse, Alternative, Updated, Distinct, AsMap, Replay, Consistent,
         OnePerLife, Faulty, Instant, Forged, Noticed, EntriesSize, Calm, Foretold, Expected, Fresh, Step, Foreseen,
         StateOf, Serves, Ready, Settled, BackedBy, Standing, Told, Image, Meaning;
    outcomes, applied, listing, ending := [], [], None, TooSmall;
    ghost var m: map<Bytes, Bytes>, at: Option<nat>, maybe: Option<seq<Op>> := map[], None, None;
    Beginning(script, deaths);
    CourseHolds(script, deaths, outcomes, applied, at, maybe, m);
    NothingForetold(script, deaths, plan, maxBytes);
    CalmBefore(deaths, plan, 0);
    CalmLess(deaths, plan, 0, |script|);
    var first := Create(d, maxBytes, plan);
    if first.None? {
      ending := if maxBytes < DATA_START + EntriesSize([]) then TooSmall else Failing;
      return;
    }
    var h := first.value;
    while |outcomes| < |script|
      invariant |outcomes| == |applied| <= |script| && (at.None? <==> maybe.None?)
      invariant OnCourse(script, deaths, outcomes, applied, at, maybe, m) && Excused(script, deaths, plan, outcomes)
      invariant fresh(h) && fresh(h.file) && fresh(h.overlay)
      invariant h.d == d && h.maxBytes == maxBytes && h.file.plan == plan
      invariant Live(h, m, maybe)
      invariant Foretold(script, deaths, plan, outcomes, maxBytes)
      invariant Calm(deaths, plan, |outcomes|) ==> StateOf(h) == Expected(Fresh(), script[..|outcomes|], maxBytes)
      decreases |script| - |outcomes|
    {
      var n := |outcomes|;
      LiveParts(h, m, maybe);
      CalmBefore(deaths, plan, n);
      var from := |h.file.trail|;
      ghost var unsure := if maybe.None? && script[n].Submit? then Some(script[n].ops) else maybe;
      var outcome := Perform(h, script[n], deaths(n), m, maybe);
      ForetoldMore(script, deaths, plan, outcomes, maxBytes, outcome);
      ExpectedMore(Fresh(), script, n, maxBytes);
      OnCourseMore(script, deaths, outcomes, applied, at, maybe, m, outcome);
      if outcome.Acked? && script[n].Submit? {
        m := Updated(m, script[n].ops);
      } else if outcome.Uncertain? && script[n].Submit? && at.None? {
        at, maybe := Some(n), unsure;
      }
      outcomes, applied := outcomes + [outcome], applied + [outcome.Acked?];
      CourseHolds(script, deaths, outcomes, applied, at, maybe, m);
      if Ends(script, deaths, n) {
        if script[n].Restart? {
          LiveParts(h, m, maybe);
        }
        var next, why, kept := StopDuring(h, from, deaths(n), m, maybe);
        if next.None? {
          ending := why;
          CalmLess(deaths, plan, |outcomes|, |script|);
          return;
        }
        OnCourseDecided(script, deaths, outcomes, applied, at, maybe, m);
        if kept && at.Some? {
          applied, m := applied[at.value := true], Alternative(m, maybe);
        }
        at, maybe := None, None;
        h := next.value;
      }
    }
    CourseHolds(script, deaths, outcomes, applied, at, maybe, m);
    LiveServes(h, m, maybe);
    if h.state == Unavailable {
      ending := Failing;
      return;
    }
    var entries := h.LiveEntries();
    listing, ending := Some(entries), Complete;
    StateParts(h);
    assert script[..|script|] == script;
  }

  lemma LiveParts(h: Handle, m: map<Bytes, Bytes>, maybe: Option<seq<Op>>)
    requires Live(h, m, maybe)
    ensures h.Valid() && h.file.Logged() && h.file.trail != [] && h.Contents() == m
    ensures h.state == Healthy ==> maybe.None?
    ensures h.state != Healthy ==> Faulty(h.file.plan)
  {
    hide Recoverable, Meaning, Serves, Ready, Settled, BackedBy, Standing, Told, Image, Faulty;
  }

  lemma NothingForetold(script: seq<Action>, deaths: nat -> Death, plan: nat -> bool, limit: nat)
    ensures Foretold(script, deaths, plan, [], limit) && Expected(Fresh(), script[..0], limit) == Fresh()
  {
    hide Fresh;
  }

  lemma LastRecoverable(h: Handle, m: map<Bytes, Bytes>, maybe: Option<seq<Op>>)
    requires Live(h, m, maybe)
    ensures h.file.trail != [] && Recoverable(h.d, h.file.trail[|h.file.trail| - 1], h.maxBytes, m, maybe)
  {
    hide Recoverable, Meaning, Serves, Ready, Settled, BackedBy, Standing, Told, Image;
  }

  lemma LiveServes(h: Handle, m: map<Bytes, Bytes>, maybe: Option<seq<Op>>)
    requires Live(h, m, maybe)
    ensures h.state != Unavailable ==> h.Serving() && Meaning(h.content) == m
    ensures h.state == Unavailable ==> Faulty(h.file.plan)
  {
    hide Recoverable, Meaning, Serves, Ready, Settled, BackedBy, Standing, Told, Image;
  }
}
