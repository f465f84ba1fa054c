/** Snapshots over the life of a handle: later commits and compaction attempts never reach them. */
module Snapshots {
  import opened Bytes
  import opened Log
  import opened Overlay
  import opened Roots
  import opened Segment
  import opened Lookup
  import opened Layout
  import opened Device
  import opened Images
  import opened CrashSafety
  import opened Storage
  import opened Verifier
  import opened Database
  import opened Visible
  import Runs

  /** What may happen to a handle while a snapshot is live. */
  datatype Request = Submit(ops: seq<Op>) | Rebuild | Take | Drop(i: nat)

  /** The view as it reads now: its mapped ranges hold whatever bytes the file has there. */
  function Seen(image: Bytes, view: ReadView): ReadView
    requires view.root.baseOffset + |view.mapping| <= |image| && view.root.logStart + |Mapping(view.index)| <= |image|
  {
    var base, log := view.root.baseOffset, view.root.logStart;
    view.(mapping := image[base..base + |view.mapping|],
          index := if view.index.bytes.None? then view.index
                   else view.index.(bytes := Some(image[log..log + |Mapping(view.index)|])))
  }

  /** Where the bytes are unchanged, the view reads as it did when it was taken. */
  lemma SeenIsView(image: Bytes, view: ReadView)
    requires BackedBy(image, view.root, view.mapping, view.index)
    ensures view.root.baseOffset + |view.mapping| <= |image| && view.root.logStart + |Mapping(view.index)| <= |image|
    ensures Seen(image, view) == view
  {
  }

  /** `Snapshot::get` through the mapped bytes of the file. */
  method Ask(d: Digests, image: Bytes, view: ReadView, onRead: bool, verifier: SegmentVerifier, key: Bytes,
             ghost c: Content)
    returns (r: ReadResult)
    requires Views(d, view, c) && BackedBy(image, view.root, view.mapping, view.index)
    requires verifier.dataSize == DataSize(c.base) && verifier.Valid(d, view.mapping)
    modifies verifier
    ensures verifier.Valid(d, view.mapping)
    ensures r == Answered(MapGet(Meaning(c), key))
  {
    SeenIsView(image, view);
    hide Views, BackedBy, DataSize, Meaning;
    r := ReadKey(d, Seen(image, view), onRead, verifier, key, c);
  }

  /** A verifier for the Base of a view. */
  method VerifierOf(d: Digests, view: ReadView, ghost c: Content) returns (verifier: SegmentVerifier)
    requires Views(d, view, c)
    ensures fresh(verifier) && verifier.dataSize == DataSize(c.base) && verifier.Valid(d, view.mapping)
  {
    hide Serves, Segment.Valid, BaseBytes, DataSize, DataLength, BlocksMatch, Represents, ApplyBatches, LogBytes,
         StorableLog, Altered;
    ServingParts(d, view.root, view.mapping, c, view.index, Charge(ApplyBatches(c.batches)));
    Unaltered(d, c.base);
    verifier := new SegmentVerifier(d, view.mapping, DataLength(d, view.mapping).value, true);
  }

  /** The view of every recorded instant from `from` on stands on unchanged bytes. */
  ghost predicate Unreached(trail: seq<Moment>, from: nat, view: ReadView) {
    forall i :: from <= i < |trail| ==> BackedBy(Image(trail[i].disk), view.root, view.mapping, view.index)
  }

  lemma UnreachedMore(before: seq<Moment>, trail: seq<Moment>, from: nat, views: seq<ReadView>, p: nat)
    requires p < |views| && before <= trail && Unreached(before, from, views[p])
    requires forall i :: |before| <= i < |trail| ==> Standing(Image(trail[i].disk), views)
    ensures Unreached(trail, from, views[p])
  {
    hide BackedBy, Image;
    forall i | from <= i < |trail|
      ensures BackedBy(Image(trail[i].disk), views[p].root, views[p].mapping, views[p].index)
    {
      if i < |before| {
        assert trail[i] == before[i];
      } else {
        assert Standing(Image(trail[i].disk), views);
      }
    }
  }

  /** The snapshot at position `p` is still the one that was taken. */
  ghost predicate Followed(h: Handle, view: ReadView, c: Content, p: nat)
    reads h, h.file, h.overlay
  {
    h.Valid() && h.file.Logged() && p < |h.views| == |h.pasts| && h.views[p] == view && h.pasts[p] == c
  }

  lemma FollowedParts(h: Handle, view: ReadView, c: Content, p: nat)
    requires Followed(h, view, c, p)
    ensures Views(h.d, view, c) && BackedBy(Image(h.file.disk), view.root, view.mapping, view.index)
  {
    hide Views, BackedBy, Serves, Ready, Settled, Image;
  }

  /** What the requests do to the database: commits go through, compactions are refused while a snapshot is live. */
  function Pursued(s: State, script: seq<Request>, limit: nat): State {
    if script == [] then s
    else
      var n := |script| - 1;
      var before := Pursued(s, script[..n], limit);
      if script[n].Submit? then Committed(before, script[n].ops, limit) else before
  }

  lemma PursuedMore(s: State, script: seq<Request>, n: nat, limit: nat)
    requires n < |script|
    ensures Pursued(s, script[..n + 1], limit) ==
            var before := Pursued(s, script[..n], limit);
            if script[n].Submit? then Committed(before, script[n].ops, limit) else before
  {
    hide Committed;
    assert script[..n + 1][..n] == script[..n];
  }

  /** One request. Whatever it does, it leaves the snapshot alone; one that would drop it is not carried out. */
  method Serve(h: Handle, request: Request, ghost view: ReadView, ghost c: Content, p: nat, ghost from: nat)
    returns (q: nat)
    requires Followed(h, view, c, p) && Unreached(h.file.trail, from, view)
    requires request.Submit? ==> Staged(request.ops)
    modifies h, h.file, h.overlay
    ensures Followed(h, view, c, q) && Unreached(h.file.trail, from, view)
    ensures old(h.file.trail) <= h.file.trail
    ensures old(h.state) == Healthy && !Runs.Faulty(h.file.plan) ==> h.state == Healthy
    ensures old(h.state) == Healthy && !Runs.Faulty(h.file.plan) ==>
              StateOf(h) ==
              if request.Submit? then Committed(old(StateOf(h)), request.ops, h.maxBytes) else old(StateOf(h))
  {
    hide Serves, Ready, Settled, BackedBy, Standing, Told, Image, Meaning, Throughout, AllSteady, Staged,
         CompactVerdict, Unreached, Updated, Payload, WithBatch;
    q := p;
    ghost var before, content, disk := h.file.trail, h.content, h.file.disk;
    match request {
      case Submit(ops) =>
        var r := h.Commit(ops);
        if r.Ok? {
          CommitSeen(h.d, disk, h.file.disk, h.root, content, h.content, ops);
        }
        UnreachedMore(before, h.file.trail, from, h.views, p);
      case Rebuild =>
        if h.root.generation + 2 < U64_LIMIT {
          var r := h.Compact();
          UnreachedMore(before, h.file.trail, from, h.views, p);
        }
      case Take =>
        var taken := h.Snapshot();
      case Drop(i) =>
        if i < |h.views| && i != p {
          h.DropSnapshot(i);
          q := if i < p then p - 1 else p;
        }
    }
  }

  /**
   * Takes a snapshot and then any sequence of commits, compaction attempts and further snapshots. At
   * every later instant the bytes it has mapped are unchanged, and asked after every request, through
   * those bytes, it answers with the map of the instant it was taken, while the database moves on.
   */
  method Follow(h: Handle, script: seq<Request>, key: Bytes, onRead: bool)
    returns (answers: seq<ReadResult>, view: ReadView)
    requires h.Valid() && h.file.Logged() && h.state != Unavailable
    requires forall i :: 0 <= i < |script| && script[i].Submit? ==> Staged(script[i].ops)
    modifies h, h.file, h.overlay
    ensures h.Valid() && view in h.views && |answers| == |script|
    ensures forall i :: 0 <= i < |answers| ==> answers[i] == Answered(MapGet(old(h.Contents()), key))
    ensures Unreached(h.file.trail, |old(h.file.trail)| - 1, view)
    ensures old(h.state) == Healthy && !Runs.Faulty(h.file.plan) ==>
              StateOf(h) == Pursued(old(StateOf(h)), script, h.maxBytes)
  {
    hide Serves, Views, Ready, Settled, BackedBy, Standing, Told, Image, Meaning, Staged, DataSize, Pursued, Committed,
         Runs.Faulty;
    ghost var c, from := h.content, |h.file.trail| - 1;
    var p: nat := |h.views|;
    var taken := h.Snapshot();
    view := taken.value;
    ToldLengths(h);
    FollowedParts(h, view, c, p);
    var verifier := VerifierOf(h.d, view, c);
    answers := [];
    ghost var first, calm := StateOf(h), h.state == Healthy && !Runs.Faulty(h.file.plan);
    PursuedNothing(first, script, h.maxBytes);
    for n := 0 to |script|
      invariant Followed(h, view, c, p) && Unreached(h.file.trail, from, view)
      invariant fresh(verifier) && verifier.dataSize == DataSize(c.base) && verifier.Valid(h.d, view.mapping)
      invariant |answers| == n && forall i :: 0 <= i < n ==> answers[i] == Answered(MapGet(Meaning(c), key))
      invariant calm ==> h.state == Healthy && StateOf(h) == Pursued(first, script[..n], h.maxBytes)
    {
      PursuedMore(first, script, n, h.maxBytes);
      p := Serve(h, script[n], view, c, p, from);
      FollowedParts(h, view, c, p);
      var answer := Ask(h.d, Image(h.file.disk), view, onRead, verifier, key, c);
      answers := answers + [answer];
    }
    assert script[..|script|] == script;
  }

  lemma PursuedNothing(s: State, script: seq<Request>, limit: nat)
    ensures Pursued(s, script[..0], limit) == s
  {
  }

  lemma ToldLengths(h: Handle)
    requires h.Valid()
    ensures |h.views| == |h.pasts|
  {
    hide Serves, Views, Ready, Settled, BackedBy, Standing, Image;
  }
}
