/** Any number of readers verifying blocks at the same time, one atomic operation at a time. */
module Readers {
  import opened Bytes
  import Segment
  import Verifier

  /** Where a reader stands inside `verify_range` for the blocks `first..=last`. */
  datatype Pc =
    | Idle
    | Enter(first: nat, last: nat)
    | Load(first: nat, k: nat, last: nat)
    | Check(first: nat, k: nat, last: nat)
    | Set(first: nat, k: nat, last: nat)
    | Count(first: nat, k: nat, last: nat)
    | Flag(first: nat, k: nat, last: nat)
    | Done(first: nat, last: nat, ok: bool)

  /** The atomics shared by the readers, and where each reader stands. */
  datatype State = State(bits: seq<bool>, remaining: U64, fully: bool, readers: seq<Pc>)

  /** A reader is picked to take its next step; an idle one starts on the given blocks. */
  datatype Turn = Turn(reader: nat, first: nat, last: nat)

  function NextBlock(first: nat, k: nat, last: nat): Pc {
    if k == last then Done(first, last, true) else Load(first, k + 1, last)
  }

  /** The atomic counter wraps below zero. */
  function Decrement(n: U64): U64 {
    if n == 0 then U64_LIMIT - 1 else n - 1
  }

  /** One atomic step of one reader. `passes` says which blocks match their checksum. */
  function Step(passes: seq<bool>, s: State, turn: Turn): State
    requires |s.bits| == |passes|
  {
    if turn.reader >= |s.readers| then s
    else
      var pc := s.readers[turn.reader];
      match pc
      case Idle => Begin(passes, s, turn)
      case Done(_, _, _) => Begin(passes, s, turn)
      case Enter(first, last) =>
        At(s, turn, if s.fully then Done(first, last, true) else Load(first, first, last))
      case Load(first, k, last) =>
        At(s, turn, if k < |s.bits| && s.bits[k] then NextBlock(first, k, last) else Check(first, k, last))
      case Check(first, k, last) =>
        At(s, turn, if k < |passes| && passes[k] then Set(first, k, last) else Done(first, last, false))
      case Set(first, k, last) =>
        if k < |s.bits| && !s.bits[k] then At(s.(bits := s.bits[k := true]), turn, Count(first, k, last))
        else At(s, turn, NextBlock(first, k, last))
      case Count(first, k, last) =>
        At(s.(remaining := Decrement(s.remaining)), turn,
           if s.remaining == 1 then Flag(first, k, last) else NextBlock(first, k, last))
      case Flag(first, k, last) =>
        At(s.(fully := true), turn, NextBlock(first, k, last))
  }

  function Begin(passes: seq<bool>, s: State, turn: Turn): State
    requires turn.reader < |s.readers|
  {
    if turn.first <= turn.last < |passes| then At(s, turn, Enter(turn.first, turn.last)) else s
  }

  function At(s: State, turn: Turn, pc: Pc): State
    requires turn.reader < |s.readers|
  {
    s.(readers := s.readers[turn.reader := pc])
  }

  /** The state after a schedule of turns, starting with `n` idle readers. */
  function Run(passes: seq<bool>, verified: bool, n: nat, schedule: seq<Turn>): (s: State)
    requires |passes| < U64_LIMIT
    ensures |s.bits| == |passes|
  {
    if schedule == [] then
      State(seq(|passes|, i => verified), if verified then 0 else |passes|, verified, seq(n, i => Idle))
    else
      Step(passes, Run(passes, verified, n, schedule[..|schedule| - 1]), schedule[|schedule| - 1])
  }

  // -------------------------------------------------------------------- invariant

  function Counting(readers: seq<Pc>): nat {
    if readers == [] then 0 else Counting(readers[..|readers| - 1]) + if readers[|readers| - 1].Count? then 1 else 0
  }

  function Flagging(readers: seq<Pc>): nat {
    if readers == [] then 0 else Flagging(readers[..|readers| - 1]) + if readers[|readers| - 1].Flag? then 1 else 0
  }

  ghost predicate AllPass(passes: seq<bool>, from: nat, to: nat) {
    from <= to <= |passes| && forall i :: from <= i < to ==> passes[i]
  }

  /** What a reader knows at each point of its loop. */
  ghost predicate Knows(passes: seq<bool>, pc: Pc) {
    match pc
    case Idle => true
    case Enter(first, last) => first <= last < |passes|
    case Load(first, k, last) => first <= k <= last < |passes| && AllPass(passes, first, k)
    case Check(first, k, last) => first <= k <= last < |passes| && AllPass(passes, first, k)
    case Set(first, k, last) => first <= k <= last < |passes| && AllPass(passes, first, k + 1)
    case Count(first, k, last) => first <= k <= last < |passes| && AllPass(passes, first, k + 1)
    case Flag(first, k, last) => first <= k <= last < |passes| && AllPass(passes, first, k + 1)
    case Done(first, last, ok) => first <= last < |passes| && (ok <==> AllPass(passes, first, last + 1))
  }

  ghost predicate Inv(passes: seq<bool>, s: State) {
    && 0 < |s.bits| == |passes| < U64_LIMIT
    && (forall i :: 0 <= i < |s.bits| && s.bits[i] ==> passes[i])
    && s.remaining == Verifier.Unset(s.bits) + Counting(s.readers)
    && Flagging(s.readers) + (if s.fully then 1 else 0) == (if s.remaining == 0 then 1 else 0)
    && forall t :: 0 <= t < |s.readers| ==> Knows(passes, s.readers[t])
  }

  lemma {:induction false} CountingUpdate(readers: seq<Pc>, t: nat, pc: Pc)
    requires t < |readers|
    ensures Counting(readers[t := pc]) + (if readers[t].Count? then 1 else 0)
            == Counting(readers) + if pc.Count? then 1 else 0
  {
    var n := |readers| - 1;
    if t < n {
      CountingUpdate(readers[..n], t, pc);
      assert readers[t := pc][..n] == readers[..n][t := pc];
    } else {
      assert readers[t := pc][..n] == readers[..n];
    }
  }

  lemma {:induction false} FlaggingUpdate(readers: seq<Pc>, t: nat, pc: Pc)
    requires t < |readers|
    ensures Flagging(readers[t := pc]) + (if readers[t].Flag? then 1 else 0)
            == Flagging(readers) + if pc.Flag? then 1 else 0
  {
    var n := |readers| - 1;
    if t < n {
      FlaggingUpdate(readers[..n], t, pc);
      assert readers[t := pc][..n] == readers[..n][t := pc];
    } else {
      assert readers[t := pc][..n] == readers[..n];
    }
  }

  lemma {:induction false} NoneCounting(readers: seq<Pc>)
    ensures (forall t :: 0 <= t < |readers| ==> !readers[t].Count?) ==> Counting(readers) == 0
    ensures (exists t :: 0 <= t < |readers| && readers[t].Count?) ==> Counting(readers) >= 1
    ensures (forall t :: 0 <= t < |readers| ==> !readers[t].Flag?) ==> Flagging(readers) == 0
    ensures (exists t :: 0 <= t < |readers| && readers[t].Flag?) ==> Flagging(readers) >= 1
  {
    if readers != [] {
      NoneCounting(readers[..|readers| - 1]);
      assert forall t :: 0 <= t < |readers| - 1 ==> readers[..|readers| - 1][t] == readers[t];
    }
  }

  lemma InitInv(passes: seq<bool>, verified: bool, n: nat)
    requires 0 < |passes| < U64_LIMIT && (verified ==> AllPass(passes, 0, |passes|))
    ensures Inv(passes, Run(passes, verified, n, []))
  {
    var s := Run(passes, verified, n, []);
    AllUnset(s.bits, verified);
    NoneCounting(s.readers);
  }

  lemma {:induction false} AllUnset(bits: seq<bool>, b: bool)
    requires forall i :: 0 <= i < |bits| ==> bits[i] == b
    ensures Verifier.Unset(bits) == if b then 0 else |bits|
  {
    if bits != [] {
      AllUnset(bits[..|bits| - 1], b);
    }
  }

  /** When the countdown has reached zero or the flag is up, every block passed. */
  lemma ZeroMeansAll(passes: seq<bool>, s: State)
    requires Inv(passes, s) && (s.remaining == 0 || s.fully)
    ensures AllPass(passes, 0, |passes|)
  {
    Verifier.UnsetAll(s.bits);
  }

  /** A step that moves one reader and leaves the atomics alone. */
  lemma MoveInv(passes: seq<bool>, s: State, t: nat, pc: Pc)
    requires Inv(passes, s) && t < |s.readers| && Knows(passes, pc)
    requires !s.readers[t].Count? && !s.readers[t].Flag? && !pc.Count? && !pc.Flag?
    ensures Inv(passes, s.(readers := s.readers[t := pc]))
  {
    CountingUpdate(s.readers, t, pc);
    FlaggingUpdate(s.readers, t, pc);
  }

  lemma SetInv(passes: seq<bool>, s: State, t: nat)
    requires Inv(passes, s) && t < |s.readers| && s.readers[t].Set? && !s.bits[s.readers[t].k]
    ensures var pc := s.readers[t];
            Inv(passes, s.(bits := s.bits[pc.k := true], readers := s.readers[t := Count(pc.first, pc.k, pc.last)]))
  {
    var pc := s.readers[t];
    CountingUpdate(s.readers, t, Count(pc.first, pc.k, pc.last));
    FlaggingUpdate(s.readers, t, Count(pc.first, pc.k, pc.last));
    Verifier.UnsetOne(s.bits, pc.k);
  }

  lemma CountInv(passes: seq<bool>, s: State, t: nat)
    requires Inv(passes, s) && t < |s.readers| && s.readers[t].Count?
    ensures s.remaining > 0
    ensures var pc := s.readers[t];
            var next := if s.remaining == 1 then Flag(pc.first, pc.k, pc.last) else NextBlock(pc.first, pc.k, pc.last);
            Inv(passes, s.(remaining := s.remaining - 1, readers := s.readers[t := next]))
  {
    var pc := s.readers[t];
    var next := if s.remaining == 1 then Flag(pc.first, pc.k, pc.last) else NextBlock(pc.first, pc.k, pc.last);
    NoneCounting(s.readers);
    CountingUpdate(s.readers, t, next);
    FlaggingUpdate(s.readers, t, next);
  }

  lemma FlagInv(passes: seq<bool>, s: State, t: nat)
    requires Inv(passes, s) && t < |s.readers| && s.readers[t].Flag?
    ensures !s.fully
    ensures var pc := s.readers[t];
            Inv(passes, s.(fully := true, readers := s.readers[t := NextBlock(pc.first, pc.k, pc.last)]))
  {
    var pc := s.readers[t];
    NoneCounting(s.readers);
    CountingUpdate(s.readers, t, NextBlock(pc.first, pc.k, pc.last));
    FlaggingUpdate(s.readers, t, NextBlock(pc.first, pc.k, pc.last));
  }

  /** A step that only reads the atomics. */
  lemma LookInv(passes: seq<bool>, s: State, turn: Turn)
    requires Inv(passes, s) && turn.reader < |s.readers|
    requires var pc := s.readers[turn.reader]; !pc.Set? && !pc.Count? && !pc.Flag?
    ensures Inv(passes, Step(passes, s, turn))
  {
    hide Inv, Verifier.Unset, Counting, Flagging;
    InvParts(passes, s);
    var t := turn.reader;
    match s.readers[t] {
      case Enter(first, last) =>
        if s.fully {
          ZeroMeansAll(passes, s);
        }
        MoveInv(passes, s, t, if s.fully then Done(first, last, true) else Load(first, first, last));
      case Load(first, k, last) =>
        MoveInv(passes, s, t, if s.bits[k] then NextBlock(first, k, last) else Check(first, k, last));
      case Check(first, k, last) =>
        MoveInv(passes, s, t, if passes[k] then Set(first, k, last) else Done(first, last, false));
      case _ =>
        if turn.first <= turn.last < |passes| {
          MoveInv(passes, s, t, Enter(turn.first, turn.last));
        }
    }
  }

  /** Every atomic step of every reader keeps the invariant. */
  lemma StepInv(passes: seq<bool>, s: State, turn: Turn)
    requires Inv(passes, s)
    ensures Inv(passes, Step(passes, s, turn))
  {
    hide Inv, Verifier.Unset, Counting, Flagging, AllPass;
    InvParts(passes, s);
    var t := turn.reader;
    if t < |s.readers| {
      match s.readers[t] {
        case Count(_, _, _) => CountInv(passes, s, t);
        case Flag(_, _, _) => FlagInv(passes, s, t);
        case Set(first, k, last) =>
          if s.bits[k] {
            MoveInv(passes, s, t, NextBlock(first, k, last));
          } else {
            SetInv(passes, s, t);
          }
        case _ => LookInv(passes, s, turn);
      }
    }
  }

  lemma InvParts(passes: seq<bool>, s: State)
    requires Inv(passes, s)
    ensures |s.bits| == |passes|
    ensures forall i :: 0 <= i < |s.bits| && s.bits[i] ==> passes[i]
    ensures forall t :: 0 <= t < |s.readers| ==> Knows(passes, s.readers[t])
  {
  }

  lemma {:induction false} RunInv(passes: seq<bool>, verified: bool, n: nat, schedule: seq<Turn>)
    requires 0 < |passes| < U64_LIMIT && (verified ==> AllPass(passes, 0, |passes|))
    ensures Inv(passes, Run(passes, verified, n, schedule))
  {
    hide Inv;
    if schedule == [] {
      InitInv(passes, verified, n);
    } else {
      RunInv(passes, verified, n, schedule[..|schedule| - 1]);
      StepInv(passes, Run(passes, verified, n, schedule[..|schedule| - 1]), schedule[|schedule| - 1]);
    }
  }

  /**
   * After any interleaving of any number of readers: marks are only on blocks that passed, the
   * countdown is the unmarked blocks plus the decrements in flight and cannot underflow, the flag
   * means that every block passed, and each finished call answered for exactly its own blocks.
   */
  lemma EveryInterleaving(passes: seq<bool>, verified: bool, n: nat, schedule: seq<Turn>)
    requires 0 < |passes| < U64_LIMIT && (verified ==> AllPass(passes, 0, |passes|))
    ensures var s := Run(passes, verified, n, schedule);
            && (forall i :: 0 <= i < |passes| && s.bits[i] ==> passes[i])
            && s.remaining == Verifier.Unset(s.bits) + Counting(s.readers)
            && (forall t :: 0 <= t < |s.readers| && s.readers[t].Count? ==> s.remaining > 0)
            && (s.fully ==> AllPass(passes, 0, |passes|))
            && (forall t :: 0 <= t < |s.readers| && s.readers[t].Done? ==>
                  var call := s.readers[t]; call.ok <==> AllPass(passes, call.first, call.last + 1))
  {
    var s := Run(passes, verified, n, schedule);
    RunInv(passes, verified, n, schedule);
    hide Run, Verifier.Unset, Counting, Flagging, AllPass;
    NoneCounting(s.readers);
    if s.fully {
      ZeroMeansAll(passes, s);
    }
    forall t | 0 <= t < |s.readers| && s.readers[t].Done?
      ensures s.readers[t].ok <==> AllPass(passes, s.readers[t].first, s.readers[t].last + 1)
    {
      assert Knows(passes, s.readers[t]);
    }
  }

  /** The blocks a reader has passed are marked. */
  ghost predicate LeavesMarks(bits: seq<bool>, pc: Pc) {
    match pc
    case Idle => true
    case Enter(_, _) => true
    case Load(first, k, _) => AllMarked(bits, first, k)
    case Check(first, k, _) => AllMarked(bits, first, k)
    case Set(first, k, _) => AllMarked(bits, first, k)
    case Count(first, k, _) => AllMarked(bits, first, k + 1)
    case Flag(first, k, _) => AllMarked(bits, first, k + 1)
    case Done(first, last, ok) => ok ==> AllMarked(bits, first, last + 1)
  }

  ghost predicate AllMarked(bits: seq<bool>, from: nat, to: nat) {
    to <= |bits| && forall i :: from <= i < to ==> bits[i]
  }

  lemma MarksStay(bits: seq<bool>, bits': seq<bool>, pc: Pc)
    requires LeavesMarks(bits, pc) && Verifier.OnlyAdds(bits, false, bits', false)
    ensures LeavesMarks(bits', pc)
  {
  }

  lemma FlagMarksAll(passes: seq<bool>, s: State)
    requires Inv(passes, s) && s.fully
    ensures forall i :: 0 <= i < |s.bits| ==> s.bits[i]
  {
    hide Counting, Flagging, Verifier.Unset, Knows;
    Verifier.UnsetAll(s.bits);
  }

  /** The reader whose turn it is leaves its marks. */
  lemma OwnMarks(passes: seq<bool>, s: State, turn: Turn)
    requires Inv(passes, s) && turn.reader < |s.readers| && LeavesMarks(s.bits, s.readers[turn.reader])
    ensures var s' := Step(passes, s, turn);
            turn.reader < |s'.readers| && LeavesMarks(s'.bits, s'.readers[turn.reader])
  {
    hide Inv, AllPass;
    InvParts(passes, s);
    assert Knows(passes, s.readers[turn.reader]);
    if s.fully {
      FlagMarksAll(passes, s);
    }
  }

  ghost predicate AllLeaveMarks(s: State) {
    forall t :: 0 <= t < |s.readers| ==> LeavesMarks(s.bits, s.readers[t])
  }

  lemma StepMarks(passes: seq<bool>, s: State, turn: Turn)
    requires Inv(passes, s) && AllLeaveMarks(s)
    ensures AllLeaveMarks(Step(passes, s, turn))
  {
    hide Inv, LeavesMarks;
    InvParts(passes, s);
    StepAdds(passes, s, turn);
    var s' := Step(passes, s, turn);
    forall t | 0 <= t < |s'.readers|
      ensures LeavesMarks(s'.bits, s'.readers[t])
    {
      if t == turn.reader {
        OwnMarks(passes, s, turn);
      } else {
        assert s'.readers[t] == s.readers[t];
        MarksStay(s.bits, s'.bits, s.readers[t]);
      }
    }
  }

  lemma {:induction false} RunMarks(passes: seq<bool>, verified: bool, n: nat, schedule: seq<Turn>)
    requires 0 < |passes| < U64_LIMIT && (verified ==> AllPass(passes, 0, |passes|))
    ensures AllLeaveMarks(Run(passes, verified, n, schedule))
  {
    if schedule != [] {
      hide Inv, AllLeaveMarks, Step;
      var rest := schedule[..|schedule| - 1];
      RunMarks(passes, verified, n, rest);
      RunInv(passes, verified, n, rest);
      StepMarks(passes, Run(passes, verified, n, rest), schedule[|schedule| - 1]);
    }
  }

  /** A call that succeeded leaves all its blocks marked for those that come after, in every interleaving. */
  lemma FinishedIsMarked(passes: seq<bool>, verified: bool, n: nat, schedule: seq<Turn>, t: nat)
    requires 0 < |passes| < U64_LIMIT && (verified ==> AllPass(passes, 0, |passes|))
    ensures var s := Run(passes, verified, n, schedule);
            t < |s.readers| && s.readers[t].Done? && s.readers[t].ok ==>
              AllMarked(s.bits, s.readers[t].first, s.readers[t].last + 1)
  {
    hide Run, AllMarked;
    RunMarks(passes, verified, n, schedule);
  }

  /** When no call is in progress, the flag is up exactly when every block is marked. */
  lemma QuiescentFlag(passes: seq<bool>, verified: bool, n: nat, schedule: seq<Turn>)
    requires 0 < |passes| < U64_LIMIT && (verified ==> AllPass(passes, 0, |passes|))
    requires forall t :: 0 <= t < |Run(passes, verified, n, schedule).readers| ==>
               var pc := Run(passes, verified, n, schedule).readers[t]; pc.Idle? || pc.Done?
    ensures var s := Run(passes, verified, n, schedule);
            s.fully <==> forall i :: 0 <= i < |passes| ==> s.bits[i]
  {
    var s := Run(passes, verified, n, schedule);
    RunInv(passes, verified, n, schedule);
    NoneCounting(s.readers);
    Verifier.UnsetAll(s.bits);
  }

  // ------------------------------------------------------------ seen by one reader

  /** Any number of further steps. */
  function Steps(passes: seq<bool>, s: State, turns: seq<Turn>): (s': State)
    requires |s.bits| == |passes|
    ensures |s'.bits| == |passes|
  {
    if turns == [] then s else Step(passes, Steps(passes, s, turns[..|turns| - 1]), turns[|turns| - 1])
  }

  lemma StepAdds(passes: seq<bool>, s: State, turn: Turn)
    requires |s.bits| == |passes|
    ensures Verifier.OnlyAdds(s.bits, s.fully, Step(passes, s, turn).bits, Step(passes, s, turn).fully)
  {
  }

  lemma {:induction false} StepsAdd(passes: seq<bool>, s: State, turns: seq<Turn>)
    requires Inv(passes, s)
    ensures var s' := Steps(passes, s, turns);
            Inv(passes, s') && Verifier.OnlyAdds(s.bits, s.fully, s'.bits, s'.fully)
  {
    hide Inv, Step;
    InvParts(passes, s);
    if turns != [] {
      var n := |turns| - 1;
      StepsAdd(passes, s, turns[..n]);
      StepInv(passes, Steps(passes, s, turns[..n]), turns[n]);
      StepAdds(passes, Steps(passes, s, turns[..n]), turns[n]);
    }
  }

  /**
   * Whatever other readers do between two steps of one reader, it is what `Verifier` allows them to:
   * marks only on blocks that pass, none taken back, and no flag before all are set.
   */
  lemma OthersInterfere(d: Digests, m: Bytes, dataSize: nat, passes: seq<bool>, s: State, turns: seq<Turn>)
    requires Inv(passes, s) && Segment.SegmentSize(dataSize) == |m| && |passes| == Segment.BlockCount(dataSize)
    requires forall i :: 0 <= i < |passes| ==> (passes[i] <==> Verifier.Passes(d, m, dataSize, i))
    ensures var s' := Steps(passes, s, turns);
            && Verifier.MarksHold(d, m, dataSize, s'.bits, s'.remaining, s'.fully)
            && Verifier.OnlyAdds(s.bits, s.fully, s'.bits, s'.fully)
  {
    hide Steps, Verifier.Passes, Verifier.Unset, Counting, Flagging, Knows;
    StepsAdd(passes, s, turns);
    Verifier.UnsetAll(Steps(passes, s, turns).bits);
  }
}
