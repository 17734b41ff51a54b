/**
 * Shutdown raced against the hard-exit timer. A step of the sequence may
 * succeed, fail or never settle; the timer may fire at any moment, even
 * between the last step and the end of the sequence. `exit` is taken to
 * return, which is the case in which a second call would show.
 *
 * The first step runs before the promise of the sequence is stored, so a
 * server.stop() that calls shutdown again, itself or through the logger when it
 * throws, finds nothing to join and begins a sequence of its own, which may do
 * the same.
 */
module Lifecycle {
  import opened Prelude

  datatype Target = Server | Poller | Backend

  const SEQUENCE: seq<Target> := [Server, Poller, Backend]

  datatype Phase = Stopping | Concluding | Over

  /** One run of the shutdown sequence, with its own timer. */
  datatype Sequence = Sequence(exitCode: int, phase: Phase, attempts: seq<Target>, timerArmed: bool, hardExitFired: bool)

  /** The sequences begun, outermost call first, and the calls of exit. */
  datatype State = State(sequences: seq<Sequence>, exits: seq<int>)

  /** `reentries` are the codes of the calls nested in this one before its first await, should it begin a sequence. */
  datatype Action = Shutdown(exitCode: int, reentries: seq<int>) | StepSettles(k: nat, failed: bool) | TimerFires(k: nat) | Conclude(k: nat)

  datatype History = Begin | Then(before: History, last: Action)

  const START: State := State([], [])

  function Begun(exitCode: int): Sequence { Sequence(exitCode, Stopping, [Server], true, false) }

  function AllBegun(codes: seq<int>): (begun: seq<Sequence>)
    ensures |begun| == |codes|
  {
    if codes == [] then [] else [Begun(codes[0])] + AllBegun(codes[1..])
  }

  lemma {:induction false} BegunAt(codes: seq<int>, k: nat)
    requires k < |codes|
    ensures AllBegun(codes)[k] == Begun(codes[k])
  {
    if k > 0 {
      BegunAt(codes[1..], k - 1);
    }
  }

  lemma BegunInOrder(first: int, more: seq<int>)
    ensures AllBegun([first] + more) == [Begun(first)] + AllBegun(more)
  {
    assert ([first] + more)[1..] == more;
  }

  /** A failed step is logged and the next one begins. */
  function Settled(q: Sequence): Sequence
  {
    if !q.phase.Stopping? then q
    else if |q.attempts| < |SEQUENCE| then q.(attempts := q.attempts + [SEQUENCE[|q.attempts|]])
    else q.(phase := Concluding)
  }

  function Fired(q: Sequence): Sequence { if q.timerArmed then q.(timerArmed := false, hardExitFired := true) else q }

  function Concluded(q: Sequence): Sequence
  {
    if q.phase.Concluding? then q.(phase := Over, timerArmed := false) else q
  }

  /** What a sequence hands to exit: 1 if its timer won, else its own code at its end. */
  function ExitOf(q: Sequence): Option<int>
  {
    if q.hardExitFired then Some(1) else if q.phase.Over? then Some(q.exitCode) else None
  }

  /** The sequence moves on, calling exit if it had not and now does. */
  function MovedTo(s: State, k: nat, q: Sequence): State
    requires k < |s.sequences|
  {
    State(s.sequences[k := q],
          s.exits + if ExitOf(s.sequences[k]).None? && ExitOf(q).Some? then [ExitOf(q).value] else [])
  }

  /** A call once a sequence was begun joins it. */
  function Step(s: State, a: Action): State
  {
    match a
    case Shutdown(exitCode, reentries) =>
      if s.sequences == [] then s.(sequences := AllBegun([exitCode] + reentries)) else s
    case StepSettles(k, _) => if k < |s.sequences| then MovedTo(s, k, Settled(s.sequences[k])) else s
    case TimerFires(k) => if k < |s.sequences| then MovedTo(s, k, Fired(s.sequences[k])) else s
    case Conclude(k) => if k < |s.sequences| then MovedTo(s, k, Concluded(s.sequences[k])) else s
  }

  function Exec(h: History): State
  {
    match h
    case Begin => START
    case Then(before, last) => Step(Exec(before), last)
  }

  // ------------------------------------------------ what the history implies

  /** The codes of the first shutdown asked for and of the calls nested in it. */
  function Codes(h: History): seq<int>
  {
    match h
    case Begin => []
    case Then(before, Shutdown(exitCode, reentries)) => if Codes(before) == [] then [exitCode] + reentries else Codes(before)
    case Then(before, _) => Codes(before)
  }

  /** How many steps of the k-th sequence have settled. */
  function Settlements(h: History, k: nat): nat
  {
    match h
    case Begin => 0
    case Then(before, last) => Settlements(before, k) + if last.StepSettles? && last.k == k < |Codes(before)| then 1 else 0
  }

  /** How many steps have begun when so many have settled: one more, as long as there is one. */
  function Attempted(settled: nat): (n: nat)
    ensures n <= |SEQUENCE|
  {
    if settled < |SEQUENCE| then settled + 1 else |SEQUENCE|
  }

  /** What the sequences hand to exit, in all. */
  function ExitsOf(sequences: seq<Sequence>): multiset<int>
  {
    if sequences == [] then multiset{}
    else ExitsOf(sequences[1..]) + if ExitOf(sequences[0]).Some? then multiset{ExitOf(sequences[0]).value} else multiset{}
  }

  // -------------------------------------------------------------- invariants

  predicate SequenceInv(q: Sequence, code: int, settlements: nat)
  {
    && q.exitCode == code
    && q.attempts == SEQUENCE[..Attempted(settlements)]
    && (q.phase.Stopping? <==> settlements < |SEQUENCE|)
    && (q.timerArmed <==> ExitOf(q).None?)
  }

  ghost predicate Inv(h: History)
  {
    var s := Exec(h);
    && |s.sequences| == |Codes(h)|
    && (forall k: nat :: k < |s.sequences| ==> SequenceInv(s.sequences[k], Codes(h)[k], Settlements(h, k)))
    && multiset(s.exits) == ExitsOf(s.sequences)
  }

  lemma {:induction false} NothingSettledBefore(h: History, k: nat)
    requires k >= |Codes(h)|
    ensures Settlements(h, k) == 0
  {
    if h.Then? {
      NothingSettledBefore(h.before, k);
    }
  }

  lemma {:induction false} BegunHaveNotExited(codes: seq<int>)
    ensures ExitsOf(AllBegun(codes)) == multiset{}
  {
    if codes != [] {
      assert AllBegun(codes)[1..] == AllBegun(codes[1..]);
      BegunHaveNotExited(codes[1..]);
    }
  }

  lemma {:induction false} OneMovedOn(sequences: seq<Sequence>, k: nat, q: Sequence)
    requires k < |sequences| && (ExitOf(sequences[k]).Some? ==> ExitOf(q) == ExitOf(sequences[k]))
    ensures ExitsOf(sequences[k := q])
            == ExitsOf(sequences)
               + if ExitOf(sequences[k]).None? && ExitOf(q).Some? then multiset{ExitOf(q).value} else multiset{}
  {
    var moved := sequences[k := q];
    if k == 0 {
      assert moved[1..] == sequences[1..];
    } else {
      assert moved[1..] == sequences[1..][k - 1 := q];
      OneMovedOn(sequences[1..], k - 1, q);
    }
  }

  lemma SettledKeeps(q: Sequence, code: int, settlements: nat)
    requires SequenceInv(q, code, settlements)
    ensures SequenceInv(Settled(q), code, settlements + 1) && ExitOf(Settled(q)) == ExitOf(q)
  {
    var n := |q.attempts|;
    if settlements + 1 < |SEQUENCE| {
      assert SEQUENCE[..n + 1] == SEQUENCE[..n] + [SEQUENCE[n]];
    }
  }

  lemma ExitsKeepUp(s: State, k: nat, q: Sequence)
    requires k < |s.sequences| && multiset(s.exits) == ExitsOf(s.sequences)
    requires ExitOf(s.sequences[k]).Some? ==> ExitOf(q) == ExitOf(s.sequences[k])
    ensures multiset(MovedTo(s, k, q).exits) == ExitsOf(MovedTo(s, k, q).sequences)
  {
    OneMovedOn(s.sequences, k, q);
  }

  /** A sequence that moves on to what its new history implies keeps the invariant. */
  lemma MovedKeeps(before: History, last: Action, k: nat, q: Sequence)
    requires Inv(before) && !last.Shutdown? && last.k == k < |Codes(before)|
    requires Step(Exec(before), last) == MovedTo(Exec(before), k, q)
    requires SequenceInv(q, Codes(before)[k], Settlements(Then(before, last), k))
    requires ExitOf(Exec(before).sequences[k]).Some? ==> ExitOf(q) == ExitOf(Exec(before).sequences[k])
    ensures Inv(Then(before, last))
  {
    var s, h := Exec(before), Then(before, last);
    ExitsKeepUp(s, k, q);
    forall j: nat | j < |s.sequences| ensures SequenceInv(Exec(h).sequences[j], Codes(h)[j], Settlements(h, j)) {
      if j != k {
        assert SequenceInv(s.sequences[j], Codes(before)[j], Settlements(before, j));
      }
    }
  }

  lemma FirstShutdownKeeps(before: History, exitCode: int, reentries: seq<int>)
    requires Inv(before) && Codes(before) == []
    ensures Inv(Then(before, Action.Shutdown(exitCode, reentries)))
  {
    var codes := [exitCode] + reentries;
    BegunHaveNotExited(codes);
    forall k: nat | k < |codes| ensures SequenceInv(AllBegun(codes)[k], codes[k], Settlements(before, k)) {
      NothingSettledBefore(before, k);
      BegunAt(codes, k);
    }
  }

  /** Every interleaving keeps each sequence and the exits in line with the history. */
  lemma {:induction false} RunKeeps(h: History)
    ensures Inv(h)
  {
    match h
    case Begin =>
    case Then(before, a) =>
      RunKeeps(before);
      var s := Exec(before);
      if a.Shutdown? {
        if Codes(before) == [] {
          FirstShutdownKeeps(before, a.exitCode, a.reentries);
        }
      } else if a.k < |s.sequences| {
        var q := s.sequences[a.k];
        assert SequenceInv(q, Codes(before)[a.k], Settlements(before, a.k));
        match a {
          case StepSettles(k, _) =>
            SettledKeeps(q, Codes(before)[k], Settlements(before, k));
            MovedKeeps(before, a, k, Settled(q));
          case TimerFires(k) => MovedKeeps(before, a, k, Fired(q));
          case Conclude(k) => MovedKeeps(before, a, k, Concluded(q));
        }
      }
  }

  // ---------------------------------------------------------------- theorems

  lemma {:induction false} AtMostOneExitEach(sequences: seq<Sequence>)
    ensures |ExitsOf(sequences)| <= |sequences|
  {
    if sequences != [] {
      AtMostOneExitEach(sequences[1..]);
    }
  }

  /**
   * In every interleaving exit is called only by the sequences begun, and at
   * most once by each.
   */
  lemma ExitsOncePerSequence(h: History)
    ensures var s := Exec(h);
            && multiset(s.exits) == ExitsOf(s.sequences)
            && |s.exits| <= |s.sequences| == |Codes(h)|
  {
    RunKeeps(h);
    var s := Exec(h);
    AtMostOneExitEach(s.sequences);
    assert |multiset(s.exits)| == |s.exits|;
  }

  /**
   * A sequence exits with 1 if its timer won and else with its own code, and
   * until it has exited its timer is armed, so a step that never settles
   * cannot keep the process alive.
   */
  lemma ArmedUntilItExits(h: History, k: nat)
    requires k < |Codes(h)|
    ensures k < |Exec(h).sequences|
    ensures var s := Exec(h);
            var q := s.sequences[k];
            && (ExitOf(q).Some? ==> ExitOf(q).value == if q.hardExitFired then 1 else Codes(h)[k])
            && (ExitOf(q).None? ==> q.timerArmed && Step(s, TimerFires(k)).exits == s.exits + [1])
  {
    RunKeeps(h);
    assert SequenceInv(Exec(h).sequences[k], Codes(h)[k], Settlements(h, k));
  }

  /** A shutdown in which server.stop() does not call back exits once, with 1 or with the code of the first call. */
  lemma ExitsOnceWithTheFirstCode(h: History)
    requires |Codes(h)| <= 1
    ensures var s := Exec(h);
            && |s.exits| <= |s.sequences| == |Codes(h)|
            && (s.exits != [] ==> s.exits[0] == if s.sequences[0].hardExitFired then 1 else Codes(h)[0])
  {
    ExitsOncePerSequence(h);
    var s := Exec(h);
    if s.exits != [] {
      assert s.exits[0] in multiset(s.exits);
      assert s.sequences[1..] == [];
      assert ExitsOf(s.sequences) == if ExitOf(s.sequences[0]).Some? then multiset{ExitOf(s.sequences[0]).value} else multiset{};
      RunKeeps(h);
      assert SequenceInv(s.sequences[0], Codes(h)[0], Settlements(h, 0));
    }
  }

  lemma BothTimersFire(asked: History)
    requires |Codes(asked)| >= 2 && Exec(asked).exits == []
    ensures var h := Then(Then(asked, TimerFires(0)), TimerFires(1)); Codes(h) == Codes(asked) && |Exec(h).exits| == 2
  {
    RunKeeps(asked);
    var s, first := Exec(asked), Then(asked, TimerFires(0));
    EveryExitShows(s.sequences, 0);
    EveryExitShows(s.sequences, 1);
    ArmedUntilItExits(asked, 0);
    ArmedUntilItExits(first, 1);
  }

  lemma {:induction false} EveryExitShows(sequences: seq<Sequence>, k: nat)
    requires k < |sequences|
    ensures ExitOf(sequences[k]).Some? ==> ExitOf(sequences[k]).value in ExitsOf(sequences)
  {
    if k > 0 {
      EveryExitShows(sequences[1..], k - 1);
    }
  }

  /** Over all interleavings of one shutdown: exit is called at most once iff no call was nested in the first. */
  lemma ExitsAtMostOnceIff(codes: seq<int>)
    ensures (forall h: History :: Codes(h) == codes ==> |Exec(h).exits| <= 1) <==> |codes| <= 1
  {
    if |codes| <= 1 {
      forall h: History | Codes(h) == codes ensures |Exec(h).exits| <= 1 {
        ExitsOncePerSequence(h);
      }
    } else {
      assert [codes[0]] + codes[1..] == codes;
      BothTimersFire(Then(Begin, Action.Shutdown(codes[0], codes[1..])));
    }
  }

  /** Settlements alone move a sequence on: three of them, whether failures or not, and every target was attempted, in order. */
  lemma EveryTargetIsAttempted(h: History, k: nat)
    requires k < |Codes(h)|
    ensures k < |Exec(h).sequences|
    ensures var q := Exec(h).sequences[k];
            && q.attempts == SEQUENCE[..Attempted(Settlements(h, k))]
            && (q.phase.Stopping? <==> Settlements(h, k) < |SEQUENCE|)
            && (!q.phase.Stopping? ==> q.attempts == [Server, Poller, Backend])
  {
    RunKeeps(h);
    assert SequenceInv(Exec(h).sequences[k], Codes(h)[k], Settlements(h, k));
  }

  // --------------------------------------------------------------- the class

  /** The closure of createLifecycle; a sequence's locals are its entry in `sequences`. */
  class LifecycleController {
    var shutdownPromise: Option<nat>
    var sequences: seq<Sequence>
    var exits: seq<int>

    ghost predicate Valid()
      reads this
    {
      && shutdownPromise == (if sequences == [] then None else Some(0))
      && (forall q :: q in sequences ==> (q.timerArmed <==> ExitOf(q).None?))
    }

    ghost function View(): State
      reads this
    {
      State(sequences, exits)
    }

    constructor ()
      ensures Valid() && View() == START
    {
      shutdownPromise, sequences, exits := None, [], [];
    }

    /** The promise is stored only after the right-hand side has run, the nested calls of server.stop() included. */
    method Shutdown(exitCode: int, reentries: seq<int>) returns (promise: nat)
      modifies this
      ensures exits == old(exits)
      ensures old(shutdownPromise).Some? ==> sequences == old(sequences)
      ensures old(shutdownPromise).None? ==> sequences == old(sequences) + AllBegun([exitCode] + reentries)
      ensures shutdownPromise == Some(promise)
      ensures promise == if old(shutdownPromise).Some? then old(shutdownPromise).value else |old(sequences)|
      ensures old(Valid()) ==> Valid() && promise == 0 && View() == old(Step(View(), Action.Shutdown(exitCode, reentries)))
      decreases |reentries|, 1
    {
      if shutdownPromise.None? {
        var begun := RunShutdownSequence(exitCode, reentries);
        ghost var codes := [exitCode] + reentries;
        forall k: nat | k < |codes| ensures AllBegun(codes)[k] == Begun(codes[k]) {
          BegunAt(codes, k);
        }
        shutdownPromise := Some(begun);
      }
      promise := shutdownPromise.value;
    }

    /** Arms the timer and calls server.stop(), up to the first await. */
    method RunShutdownSequence(exitCode: int, reentries: seq<int>) returns (begun: nat)
      requires shutdownPromise.None?
      modifies this
      ensures exits == old(exits) && begun == |old(sequences)|
      ensures sequences == old(sequences) + AllBegun([exitCode] + reentries)
      decreases |reentries|, 0
    {
      begun := |sequences|;
      sequences := sequences + [Begun(exitCode)];
      if |reentries| > 0 {
        var _ := Shutdown(reentries[0], reentries[1..]);
        assert [reentries[0]] + reentries[1..] == reentries;
      }
      BegunInOrder(exitCode, reentries);
    }

    method StepSettled(k: nat, failed: bool)
      requires Valid() && k < |sequences|
      modifies this
      ensures Valid() && View() == old(Step(View(), StepSettles(k, failed)))
    {
      var q := sequences[k];
      if q.phase.Stopping? {
        if |q.attempts| < |SEQUENCE| {
          sequences := sequences[k := q.(attempts := q.attempts + [SEQUENCE[|q.attempts|]])];
        } else {
          sequences := sequences[k := q.(phase := Concluding)];
        }
      }
    }

    method HardExitTimerFired(k: nat)
      requires Valid() && k < |sequences| && sequences[k].timerArmed
      modifies this
      ensures Valid() && View() == old(Step(View(), TimerFires(k)))
    {
      sequences := sequences[k := sequences[k].(timerArmed := false, hardExitFired := true)];
      exits := exits + [1];
    }

    method SequenceEnded(k: nat)
      requires Valid() && k < |sequences| && sequences[k].phase.Concluding?
      modifies this
      ensures Valid() && View() == old(Step(View(), Conclude(k)))
    {
      var q := sequences[k];
      sequences := sequences[k := q.(phase := Over, timerArmed := false)];
      if !q.hardExitFired {
        exits := exits + [q.exitCode];
      }
    }
  }
}
