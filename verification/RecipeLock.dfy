/** The per-recipe training lock: `flock` on a sentinel file that nobody ever deletes. */
module RecipeLock {
  import opened Wrappers
  import opened Runs

  // ------------------------------------------------------------------ processes and one sentinel

  /** Each process has at most one descriptor on the sentinel; it refers to the inode that stood at
      the path when it was opened. A trainer inside writes an artifact, then the pointer to it. */
  datatype Process =
    | Outside
    | Opened(inode: nat, exclusive: bool)
    | Inside(inode: nat, exclusive: bool, wroteArtifact: bool)

  datatype Write = Artifact(writer: nat) | Pointer(writer: nat)

  /** `sentinel` is the inode at the lock path, `inodes` the number ever created there. */
  datatype State = State(sentinel: Option<nat>, inodes: nat, ps: seq<Process>, log: seq<Write>)

  datatype Action =
    | Open(i: nat, exclusive: bool)
    | Flock(i: nat)
    | WriteArtifact(i: nat)
    | WritePointer(i: nat)
    | Close(i: nat)                  // leaving, giving up, or dying: the descriptor goes, and the lock with it
    | Unlink                         // someone deletes the sentinel

  predicate Holds(p: Process, inode: nat) {
    p.Inside? && p.inode == inode
  }

  /** An exclusive lock needs the inode to itself, a shared one only the absence of exclusive ones. */
  predicate Grants(s: State, i: nat, inode: nat, exclusive: bool) {
    forall j :: 0 <= j < |s.ps| && j != i && Holds(s.ps[j], inode) ==> !exclusive && !s.ps[j].exclusive
  }

  function Step(unlinks: bool, s: State, a: Action): State {
    if a.Unlink? then (if unlinks then s.(sentinel := None) else s)
    else if a.i >= |s.ps| then s
    else match (a, s.ps[a.i])
      case (Open(i, exclusive), Outside) =>
        (match s.sentinel
         case Some(inode) => s.(ps := s.ps[i := Opened(inode, exclusive)])
         case None =>
           s.(sentinel := Some(s.inodes), inodes := s.inodes + 1, ps := s.ps[i := Opened(s.inodes, exclusive)]))
      case (Flock(i), Opened(inode, exclusive)) =>
        if Grants(s, i, inode, exclusive) then s.(ps := s.ps[i := Inside(inode, exclusive, false)]) else s
      case (WriteArtifact(i), Inside(inode, true, _)) =>
        s.(ps := s.ps[i := Inside(inode, true, true)], log := s.log + [Artifact(i)])
      case (WritePointer(i), Inside(inode, true, true)) =>
        s.(ps := s.ps[i := Inside(inode, true, false)], log := s.log + [Pointer(i)])
      case (Close(i), _) => s.(ps := s.ps[i := Outside])
      case _ => s
  }

  function Stepping(unlinks: bool): (State, Action) -> State {
    (s, a) => Step(unlinks, s, a)
  }

  function Start(n: nat): State {
    State(None, 0, seq(n, _ => Outside), [])
  }

  /** Nobody is inside together with a process inside an exclusive section. */
  ghost predicate Exclusive(s: State) {
    forall i, j :: 0 <= i < |s.ps| && 0 <= j < |s.ps| && i != j && s.ps[i].Inside? && s.ps[j].Inside? ==>
      !s.ps[i].exclusive && !s.ps[j].exclusive
  }

  /** All descriptors are open on the one inode. */
  ghost predicate OneInode(s: State) {
    && (forall i :: 0 <= i < |s.ps| && !s.ps[i].Outside? ==> s.sentinel == Some(s.ps[i].inode))
    && (s.sentinel.Some? ==> s.sentinel.value < s.inodes)
  }

  /** A pointer is always the very next write after its own writer's artifact. */
  ghost predicate InPairs(log: seq<Write>) {
    forall k :: 0 <= k < |log| && log[k].Pointer? ==> k > 0 && log[k - 1] == Artifact(log[k].writer)
  }

  ghost predicate Inv(s: State) {
    && OneInode(s) && Exclusive(s) && InPairs(s.log)
    && forall i :: 0 <= i < |s.ps| && s.ps[i].Inside? && s.ps[i].wroteArtifact ==>
         s.ps[i].exclusive && s.log != [] && s.log[|s.log| - 1] == Artifact(i)
  }

  lemma StepKeepsInv(s: State, a: Action)
    requires Inv(s)
    ensures Inv(Step(false, s, a))
  {
  }

  lemma RunKeepsInv(s: State, actions: seq<Action>)
    requires Inv(s)
    ensures Inv(Run(Stepping(false), s, actions))
  {
    hide Inv, Step;
    forall t, a | Inv(t)
      ensures Inv(Stepping(false)(t, a))
    {
      StepKeepsInv(t, a);
    }
    RunKeeps(Stepping(false), Inv, s, actions);
  }

  /** As long as nobody unlinks the sentinel, for any number of processes that open, lock, write,
      give up and die in any order: exclusion holds and two trainers' writes never interleave. */
  lemma MutualExclusion(n: nat, actions: seq<Action>)
    ensures
      var s := Run(Stepping(false), Start(n), actions);
      Exclusive(s) && OneInode(s) && InPairs(s.log)
  {
    hide Step;
    RunKeepsInv(Start(n), actions);
  }

  lemma RunFour(s: State, a: Action, b: Action, c: Action, d: Action)
    ensures Run(Stepping(true), s, [a, b, c, d]) == Step(true, Step(true, Step(true, Step(true, s, a), b), c), d)
  {
    hide Step, Run;
    assert [a, b, c, d] == [a, b] + [c, d];
    RunAppend(Stepping(true), s, [a, b], [c, d]);
    RunTwo(Stepping(true), s, a, b);
    RunTwo(Stepping(true), Step(true, Step(true, s, a), b), c, d);
  }

  /** With the sentinel deleted while it is held, two trainers are inside at once, and the second
      one's artifact comes between the first one's artifact and pointer. */
  lemma UnlinkingBreaksIt()
    ensures
      var actions := [Open(0, true), Flock(0), WriteArtifact(0), Unlink]
                   + [Open(1, true), Flock(1), WriteArtifact(1), WritePointer(0)];
      var s := Run(Stepping(true), Start(2), actions);
      !Exclusive(s) && !InPairs(s.log)
  {
    var first := [Open(0, true), Flock(0), WriteArtifact(0), Unlink];
    var second := [Open(1, true), Flock(1), WriteArtifact(1), WritePointer(0)];
    RunAppend(Stepping(true), Start(2), first, second);
    RunFour(Start(2), Open(0, true), Flock(0), WriteArtifact(0), Unlink);
    var s := Run(Stepping(true), Start(2), first);
    assert s == State(None, 1, [Inside(0, true, true), Outside], [Artifact(0)]) by {
      FirstHalf();
    }
    RunFour(s, Open(1, true), Flock(1), WriteArtifact(1), WritePointer(0));
    SecondHalf();
    var s' := Run(Stepping(true), s, second);
    assert s' == State(Some(1), 2, [Inside(0, true, false), Inside(1, true, true)], [Artifact(0), Artifact(1), Pointer(0)]);
    assert s'.ps[0].Inside? && s'.ps[1].Inside?;
    assert s'.log[2] == Pointer(0) && s'.log[1] == Artifact(1);
  }

  lemma FirstHalf()
    ensures
      Step(true, Step(true, Step(true, Step(true, Start(2), Open(0, true)), Flock(0)), WriteArtifact(0)), Unlink)
      == State(None, 1, [Inside(0, true, true), Outside], [Artifact(0)])
  {
    assert Step(true, Start(2), Open(0, true)) == State(Some(0), 1, [Opened(0, true), Outside], []);
    assert Step(true, State(Some(0), 1, [Opened(0, true), Outside], []), Flock(0))
        == State(Some(0), 1, [Inside(0, true, false), Outside], []);
  }

  lemma SecondHalf()
    ensures
      var s := State(None, 1, [Inside(0, true, true), Outside], [Artifact(0)]);
      Step(true, Step(true, Step(true, Step(true, s, Open(1, true)), Flock(1)), WriteArtifact(1)), WritePointer(0))
      == State(Some(1), 2, [Inside(0, true, false), Inside(1, true, true)], [Artifact(0), Artifact(1), Pointer(0)])
  {
    var s := State(None, 1, [Inside(0, true, true), Outside], [Artifact(0)]);
    var s1 := State(Some(1), 2, [Inside(0, true, true), Opened(1, true)], [Artifact(0)]);
    var s2 := State(Some(1), 2, [Inside(0, true, true), Inside(1, true, false)], [Artifact(0)]);
    var s3 := State(Some(1), 2, [Inside(0, true, true), Inside(1, true, true)], [Artifact(0), Artifact(1)]);
    assert Step(true, s, Open(1, true)) == s1;
    assert Step(true, s1, Flock(1)) == s2;
    assert Step(true, s2, WriteArtifact(1)) == s3;
  }

  /** Exactly when a process that asks gets in: when nobody is inside, or all who are, and it,
      are content with a shared lock. */
  lemma EntersIff(s: State, i: nat)
    requires Inv(s) && i < |s.ps| && s.ps[i].Opened?
    ensures
      Step(false, s, Flock(i)).ps == s.ps[i := Inside(s.ps[i].inode, s.ps[i].exclusive, false)] <==>
      forall j :: 0 <= j < |s.ps| && j != i && s.ps[j].Inside? ==> !s.ps[i].exclusive && !s.ps[j].exclusive
  {
    if Step(false, s, Flock(i)).ps == s.ps[i := Inside(s.ps[i].inode, s.ps[i].exclusive, false)] {
      assert Step(false, s, Flock(i)).ps[i].Inside?;
    }
  }

  /** The lock passes on: when the only process inside closes its descriptor, or dies, any process
      that has none opens the sentinel and is in. */
  lemma LockPassesOn(s: State, i: nat, j: nat, exclusive: bool)
    requires Inv(s) && i < |s.ps| && j < |s.ps| && i != j && s.ps[i].Outside?
    requires forall k :: 0 <= k < |s.ps| && s.ps[k].Inside? ==> k == j
    ensures
      var t := Run(Stepping(false), s, [Close(j), Open(i, exclusive), Flock(i)]);
      |t.ps| == |s.ps| && t.ps[j].Outside? && t.ps[i].Inside? && t.ps[i].exclusive == exclusive && t.log == s.log
  {
    hide Run;
    RunThree(Stepping(false), s, Close(j), Open(i, exclusive), Flock(i));
    var s1 := Step(false, s, Close(j));
    var s2 := Step(false, s1, Open(i, exclusive));
    assert s1.ps == s.ps[j := Outside] && s2.ps[i].Opened?;
    assert forall k :: 0 <= k < |s2.ps| ==> !s2.ps[k].Inside?;
    assert Grants(s2, i, s2.ps[i].inode, exclusive);
  }

  /** A trainer inside writes its artifact and then the pointer to it. */
  lemma TrainerWrites(s: State, i: nat)
    requires i < |s.ps| && s.ps[i].Inside? && s.ps[i].exclusive
    ensures Run(Stepping(false), s, [WriteArtifact(i), WritePointer(i)]).log == s.log + [Artifact(i), Pointer(i)]
  {
    hide Run;
    RunTwo(Stepping(false), s, WriteArtifact(i), WritePointer(i));
  }

  // ------------------------------------------------------------------ one acquisition

  datatype OpenAnswer = OpenedOk | IsSymlink | PermissionDenied | OpenFailed

  /** `Busy` are the contention errors, `Broken` every other error of the system call. */
  datatype FlockAnswer = Granted | Busy | Broken

  datatype Timeout = NonBlocking | Indefinite | Seconds(ticks: nat)

  datatype LockResult =
    | Entered                        // the caller's block runs with `True`
    | Skipped                        // the caller's block runs with `False`
    | Contested | TimedOut(waited: int) | SystemError

  /** The polling loop decides at attempt `n`: all earlier ones were refused before the deadline. */
  ghost predicate PolledUntil(flock: nat -> FlockAnswer, clock: nat -> int, deadline: int, n: nat) {
    forall k: nat :: k < n ==> Refused(flock, clock, deadline, k)
  }

  ghost predicate Refused(flock: nat -> FlockAnswer, clock: nat -> int, deadline: int, k: nat) {
    flock(k).Busy? && clock(k + 1) < deadline
  }

  ghost predicate DecidesAt(flock: nat -> FlockAnswer, clock: nat -> int, deadline: int, n: nat, r: LockResult) {
    && PolledUntil(flock, clock, deadline, n)
    && match flock(n)
       case Granted => r == Entered
       case Broken => r == SystemError
       case Busy => clock(n + 1) >= deadline && r == TimedOut(clock(n + 1) - clock(0))
  }

  /** At most one attempt can decide, so the outcome of the loop is a function of the answers. */
  lemma DecisionIsUnique(flock: nat -> FlockAnswer, clock: nat -> int, deadline: int, n: nat, r: LockResult, n': nat, r': LockResult)
    requires DecidesAt(flock, clock, deadline, n, r) && DecidesAt(flock, clock, deadline, n', r')
    ensures n == n' && r == r'
  {
    assert n < n' ==> Refused(flock, clock, deadline, n);
    assert n' < n ==> Refused(flock, clock, deadline, n');
  }

  class LockClient {
    var opens: nat
    var closes: nat
    var warnedRemotePaths: set<string>

    /** The advisory about a host-local lock is a warning once per lock path. */
    method WarnRemote(lockPath: string) returns (warning: bool)
      modifies this`warnedRemotePaths
      ensures warning == (lockPath !in old(warnedRemotePaths))
      ensures warnedRemotePaths == old(warnedRemotePaths) + {lockPath}
    {
      warning := lockPath !in warnedRemotePaths;
      if warning {
        warnedRemotePaths := warnedRemotePaths + {lockPath};
      }
    }

    /** Polls every tick until granted, broken, or past the deadline. */
    method Poll(flock: nat -> FlockAnswer, clock: nat -> int, ticks: nat) returns (r: LockResult, ghost n: nat)
      requires forall k: nat :: clock(k) < clock(k + 1)
      ensures DecidesAt(flock, clock, clock(0) + ticks, n, r)
      ensures r.TimedOut? ==> r.waited >= ticks
    {
      var start := clock(0);
      var deadline := start + ticks;
      n := 0;
      var k := 0;
      while true
        invariant k >= 0 && n == k && PolledUntil(flock, clock, deadline, k)
        decreases deadline - clock(k)
      {
        match flock(k) {
          case Granted => return Entered, k;
          case Broken => return SystemError, k;
          case Busy =>
            if clock(k + 1) >= deadline {
              return TimedOut(clock(k + 1) - start), k;
            }
            assert Refused(flock, clock, deadline, k);
            k := k + 1;
            n := k;
        }
      }
    }

    /** Open, lock, run the caller's block, close. Whatever happens, a descriptor that was opened is
        closed once. A timed wait that runs out raises even when the caller asked to skip. */
    method Acquire(timeout: Timeout, failOnBusy: bool, open: OpenAnswer, flock: nat -> FlockAnswer, clock: nat -> int)
      returns (r: LockResult, ghost n: nat)
      requires forall k: nat :: clock(k) < clock(k + 1)
      modifies this`opens, this`closes
      ensures opens - old(opens) == closes - old(closes) == if open.OpenedOk? then 1 else 0
      ensures open.IsSymlink? || open.OpenFailed? ==> r == SystemError
      ensures open.PermissionDenied? ==> r == if failOnBusy then Contested else Skipped
      ensures open.OpenedOk? ==>
        if timeout.Seconds? && timeout.ticks > 0 then DecidesAt(flock, clock, clock(0) + timeout.ticks, n, r)
        else match flock(0)
          case Granted => r == Entered
          case Broken => r == SystemError
          case Busy => r == if failOnBusy then Contested else Skipped
    {
      n := 0;
      match open {
        case IsSymlink => return SystemError, n;
        case OpenFailed => return SystemError, n;
        case PermissionDenied => return (if failOnBusy then Contested else Skipped), n;
        case OpenedOk =>
      }
      opens := opens + 1;
      if timeout.Seconds? && timeout.ticks > 0 {
        r, n := Poll(flock, clock, timeout.ticks);
      } else {
        match flock(0) {
          case Granted => r := Entered;
          case Broken => r := SystemError;
          case Busy => r := if failOnBusy then Contested else Skipped;
        }
      }
      closes := closes + 1;
    }
  }
}
