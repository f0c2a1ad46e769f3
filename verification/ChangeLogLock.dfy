/** The lock on the change log: any number of nodes, one database row, and the steps in which
    a node waits for the lock, works, and releases it. A database call that fails changes nothing. */
module ChangeLogLock {
  import opened Prelude

  // Values that a query may return.
  datatype SqlValue = Null | Str(s: string) | Int(i: int) | Long(l: int) | Bool(b: bool) | Other

  function TrimLeft(s: string): (t: string)
    ensures |t| <= |s|
  {
    if s != "" && s[0] <= ' ' then TrimLeft(s[1..]) else s
  }

  function TrimRight(s: string): string {
    if s != "" && s[|s| - 1] <= ' ' then TrimRight(s[..|s| - 1]) else s
  }

  // Whether a value means locked; None for a value that is refused.
  function CheckReturnValue(v: SqlValue): Option<bool> {
    match v
    case Str(s) =>
      var trim := TrimRight(TrimLeft(s));
      if trim == "T" then Some(true)
      else if trim == "F" || s == "" || trim == "0" then Some(false)
      else None
    case Null => Some(false)
    case Int(i) => Some(i != 0)
    case Long(l) => Some(l != 0)
    case Bool(b) => Some(b)
    case Other => Some(false)
  }

  const LOCKED: string := "T"
  const UNLOCKED: string := "F"

  // The condition of the update that takes the lock.
  predicate Takeable(cubrid: bool, locked: string) {
    locked == UNLOCKED || (cubrid && locked == "0")
  }

  // Where a node is in its update.
  datatype Pc =
    | Idle                  // not updating
    | Waiting               // before the next try
    | Acquiring             // about to roll back
    | Checking              // about to read the row
    | Trying                // about to update the row
    | Won                   // the row is updated, but not committed
    | Finishing(next: Next) // the final rollback of a try
    | Critical              // holds the lock and works
    | Releasing             // about to roll back
    | Freeing               // about to update the row
    | Freed                 // the row is updated, but not committed
    | Leaving               // the final rollback of the release

  // What a try leads to.
  datatype Next = Failed | Again | Got

  function Onwards(next: Next): Pc {
    match next
    case Failed => Idle
    case Again => Waiting
    case Got => Critical
  }

  datatype Node = Node(pc: Pc, hasChangeLogLock: bool)

  // An update that is not committed yet blocks every other update of the row.
  datatype Writer = Writer(node: nat, value: string)

  datatype State = State(row: string, writer: Option<Writer>, nodes: seq<Node>)

  ghost predicate Init(s: State, cubrid: bool) {
    && Takeable(cubrid, s.row) && s.writer == None
    && forall n | 0 <= n < |s.nodes| :: s.nodes[n] == Node(Idle, false)
  }

  function At(s: State, n: nat, pc: Pc): State
    requires n < |s.nodes|
  {
    s.(nodes := s.nodes[n := s.nodes[n].(pc := pc)])
  }

  function Holding(s: State, n: nat, has: bool): State
    requires n < |s.nodes|
  {
    s.(nodes := s.nodes[n := s.nodes[n].(hasChangeLogLock := has)])
  }

  predicate Writes(s: State, n: nat) {
    s.writer.Some? && s.writer.value.node == n
  }

  function RolledBack(s: State, n: nat): State {
    if Writes(s, n) then s.(writer := None) else s
  }

  function Committed(s: State, n: nat): State {
    if Writes(s, n) then s.(writer := None, row := s.writer.value.value) else s
  }

  // waitForLock: another try, the lock that the node still has, or the end of its patience.
  ghost predicate Wait(s: State, s': State, n: nat)
    requires n < |s.nodes|
  {
    && s.nodes[n].pc == Waiting
    && (s' == At(s, n, Idle) || s' == At(s, n, if s.nodes[n].hasChangeLogLock then Critical else Acquiring))
  }

  // acquireLock: each call may fail, and then only the final rollback follows.
  ghost predicate Acquire(s: State, s': State, n: nat, cubrid: bool)
    requires n < |s.nodes|
  {
    match s.nodes[n].pc
    case Acquiring =>
      s' == At(RolledBack(s, n), n, Checking) || s' == At(s, n, Finishing(Failed))
    case Checking =>
      || s' == At(s, n, Finishing(Failed))
      || exists seen :: s' == At(s, n, Checked(seen))
    case Trying =>
      || s' == At(s, n, Finishing(Failed))
      || (s.writer == None && s' ==
            if Takeable(cubrid, s.row) then At(s.(writer := Some(Writer(n, LOCKED))), n, Won)
            else At(s, n, Finishing(Again)))
    case Won =>
      || s' == At(s, n, Finishing(Failed))
      || s' == Holding(At(Committed(s, n), n, Finishing(Got)), n, true)
    case Finishing(next) =>
      s' == At(RolledBack(s, n), n, Onwards(next)) || s' == At(s, n, Onwards(next))
    case _ => false
  }

  // What the value read leads to; it may be anything, also an old value.
  function Checked(seen: SqlValue): Pc {
    match CheckReturnValue(seen)
    case None => Finishing(Failed)
    case Some(true) => Finishing(Again)
    case Some(false) => Trying
  }

  // The work on the change log commits and rolls back on the node's own connection.
  ghost predicate Work(s: State, s': State, n: nat)
    requires n < |s.nodes|
  {
    s.nodes[n].pc == Critical &&
      (s' == s || s' == Committed(s, n) || s' == RolledBack(s, n) || s' == At(s, n, Releasing))
  }

  // releaseLock: without a lock table there is nothing to do.
  ghost predicate Release(s: State, s': State, n: nat)
    requires n < |s.nodes|
  {
    match s.nodes[n].pc
    case Releasing =>
      s' == At(RolledBack(s, n), n, Freeing) || s' == At(s, n, Leaving)
    case Freeing =>
      s' == At(s, n, Leaving) || (s.writer == None && s' == At(s.(writer := Some(Writer(n, UNLOCKED))), n, Freed))
    case Freed =>
      s' == At(s, n, Leaving) || s' == Holding(At(Committed(s, n), n, Leaving), n, false)
    case Leaving =>
      s' == At(RolledBack(s, n), n, Idle) || s' == At(s, n, Idle)
    case _ => false
  }

  ghost predicate Step(s: State, s': State, n: nat, cubrid: bool) {
    && n < |s.nodes|
    && ((s.nodes[n].pc == Idle && s' == At(s, n, Waiting))
        || Wait(s, s', n) || Acquire(s, s', n, cubrid) || Work(s, s', n) || Release(s, s', n))
  }

  // The final rollback of a release failed while its update was neither committed nor rolled back.
  predicate Torn(s: State, s': State, n: nat) {
    n < |s.nodes| && s.nodes[n].pc == Leaving && Writes(s, n) && s'.writer == s.writer
  }

  // A node is between the return of waitForLock and the commit of releaseLock.
  predicate Inside(node: Node) {
    node.pc.Critical? || node.pc.Releasing? || node.pc.Freeing? || node.pc.Freed?
  }

  ghost predicate MutualExclusion(s: State) {
    forall m, n | 0 <= m < |s.nodes| && 0 <= n < |s.nodes| && Inside(s.nodes[m]) && Inside(s.nodes[n]) :: m == n
  }

  // A try is under way, and has not got the lock yet.
  predicate Waits(pc: Pc) {
    || pc.Acquiring? || pc.Checking? || pc.Trying? || pc.Won?
    || pc == Finishing(Again) || pc == Finishing(Failed)
  }

  // What holds of every node in every state: who has the lock committed it, and only its holder may write an unlock.
  ghost predicate NodeOk(s: State, n: nat)
    requires n < |s.nodes|
  {
    var node := s.nodes[n];
    && (node.hasChangeLogLock ==> s.row == LOCKED)
    && (Inside(node) || node.pc == Finishing(Got) ==> node.hasChangeLogLock)
    && (Waits(node.pc) ==> !node.hasChangeLogLock)
    && (node.pc == Won ==> s.writer == Some(Writer(n, LOCKED)))
    && (node.pc == Freed ==> s.writer == Some(Writer(n, UNLOCKED)))
    && (Writes(s, n) ==>
         if s.writer.value.value == LOCKED then !node.hasChangeLogLock &&
           !(node.pc.Leaving? || node.pc.Trying? || node.pc.Checking? || node.pc == Finishing(Got))
         else s.writer.value.value == UNLOCKED && node.hasChangeLogLock && (node.pc.Freed? || node.pc.Leaving?))
  }

  ghost predicate Inv(s: State, cubrid: bool) {
    && (forall n | 0 <= n < |s.nodes| :: NodeOk(s, n))
    && (forall m, n | 0 <= m < |s.nodes| && 0 <= n < |s.nodes| && s.nodes[m].hasChangeLogLock &&
      s.nodes[n].hasChangeLogLock :: m == n)
    && (s.writer.Some? ==> s.writer.value.node < |s.nodes|)
    && (s.writer.Some? && s.writer.value.value == LOCKED ==> Takeable(cubrid, s.row))
  }

  lemma InitInv(s: State, cubrid: bool)
    requires Init(s, cubrid)
    ensures Inv(s, cubrid)
  {
  }

  // Only node n moved, and it took the lock in one commit or gave it up in another.
  ghost predicate Framed(s: State, s': State, n: nat)
    requires n < |s.nodes|
  {
    && |s'.nodes| == |s.nodes| && (forall m | 0 <= m < |s.nodes| && m != n :: s'.nodes[m] == s.nodes[m])
    && (s'.nodes[n].hasChangeLogLock && !s.nodes[n].hasChangeLogLock ==>
          s.nodes[n].pc == Won && s' == Holding(At(Committed(s, n), n, Finishing(Got)), n, true))
    && (!s'.nodes[n].hasChangeLogLock && s.nodes[n].hasChangeLogLock ==>
          s.nodes[n].pc == Freed && s' == Holding(At(Committed(s, n), n, Leaving), n, false))
  }

  lemma WaitFrame(s: State, s': State, n: nat)
    requires n < |s.nodes| && (Wait(s, s', n) || Work(s, s', n))
    ensures Framed(s, s', n)
  {
  }

  lemma AcquireFrame(s: State, s': State, n: nat, cubrid: bool)
    requires n < |s.nodes| && Acquire(s, s', n, cubrid)
    ensures Framed(s, s', n)
  {
  }

  lemma ReleaseFrame(s: State, s': State, n: nat)
    requires n < |s.nodes| && Release(s, s', n)
    ensures Framed(s, s', n)
  {
  }

  // A step leaves the other nodes alone; only a committed update of the row gives the lock, and only its holder's
  // unlock takes it.
  lemma StepFrame(s: State, s': State, n: nat, cubrid: bool)
    requires Step(s, s', n, cubrid)
    ensures n < |s.nodes| == |s'.nodes| && (forall m | 0 <= m < |s.nodes| && m != n :: s'.nodes[m] == s.nodes[m])
    ensures s'.nodes[n].hasChangeLogLock && !s.nodes[n].hasChangeLogLock ==>
        s.nodes[n].pc == Won && s' == Holding(At(Committed(s, n), n, Finishing(Got)), n, true)
    ensures !s'.nodes[n].hasChangeLogLock && s.nodes[n].hasChangeLogLock ==>
        s.nodes[n].pc == Freed && s' == Holding(At(Committed(s, n), n, Leaving), n, false)
  {
    hide Wait, Acquire, Work, Release;
    if Wait(s, s', n) || Work(s, s', n) {
      WaitFrame(s, s', n);
    } else if Acquire(s, s', n, cubrid) {
      AcquireFrame(s, s', n, cubrid);
    } else if Release(s, s', n) {
      ReleaseFrame(s, s', n);
    }
  }

  // A step may open a transaction on the row if there is none, and end its own.
  lemma StepWriter(s: State, s': State, n: nat, cubrid: bool)
    requires Step(s, s', n, cubrid)
    ensures n < |s.nodes|
    ensures s'.writer != s.writer ==> (if s.writer == None then Writes(s', n) else Writes(s, n) && s'.writer == None)
    ensures s'.row != s.row ==> Writes(s, n) && s'.writer == None && s'.row == s.writer.value.value
    ensures s.writer == None && s'.writer != None && s'.writer.value.value == LOCKED ==>
        Takeable(cubrid, s.row) && s.nodes[n].pc == Trying
    ensures s.writer == None && s'.writer != None ==>
        s'.writer.value.value == LOCKED || (s'.writer.value.value == UNLOCKED && s.nodes[n].pc == Freeing)
  {
  }

  lemma StepInv(s: State, s': State, n: nat, cubrid: bool)
    requires Inv(s, cubrid) && Step(s, s', n, cubrid) && !Torn(s, s', n)
    ensures Inv(s', cubrid)
  {
    hide Step, NodeOk;
    StepFrame(s, s', n, cubrid);
    StepWriter(s, s', n, cubrid);
    forall m | 0 <= m < |s'.nodes| ensures NodeOk(s', m) {
      if m == n { assert NodeOk(s, n); StepOwn(s, s', n, cubrid); } else { StepOther(s, s', n, m, cubrid); }
    }
    if s.nodes[n].pc == Won { WonAlone(s, n, cubrid); }
  }

  // Before the commit that gives the lock, nobody has it.
  lemma WonAlone(s: State, n: nat, cubrid: bool)
    requires Inv(s, cubrid) && n < |s.nodes| && s.nodes[n].pc == Won
    ensures forall m | 0 <= m < |s.nodes| :: !s.nodes[m].hasChangeLogLock
  {
    assert NodeOk(s, n);
    forall m | 0 <= m < |s.nodes| ensures !s.nodes[m].hasChangeLogLock { assert NodeOk(s, m); }
  }

  lemma StepOther(s: State, s': State, n: nat, m: nat, cubrid: bool)
    requires Inv(s, cubrid) && Step(s, s', n, cubrid) && m < |s.nodes| && m != n
    ensures |s'.nodes| == |s.nodes| && NodeOk(s', m)
  {
    hide Step;
    StepFrame(s, s', n, cubrid);
    assert NodeOk(s, n) && NodeOk(s, m);
    StepWriter(s, s', n, cubrid);
  }

  lemma StepOwn(s: State, s': State, n: nat, cubrid: bool)
    requires n < |s.nodes| && NodeOk(s, n) && Step(s, s', n, cubrid) && !Torn(s, s', n)
    ensures |s'.nodes| == |s.nodes| && NodeOk(s', n)
  {
    if Wait(s, s', n) {
      OwnWait(s, s', n);
    } else if Acquire(s, s', n, cubrid) {
      OwnAcquire(s, s', n, cubrid);
    } else if Work(s, s', n) {
      OwnWork(s, s', n);
    } else if Release(s, s', n) {
      OwnRelease(s, s', n);
    }
  }

  lemma OwnWait(s: State, s': State, n: nat)
    requires n < |s.nodes| && NodeOk(s, n) && Wait(s, s', n)
    ensures |s'.nodes| == |s.nodes| && NodeOk(s', n)
  {
  }

  lemma OwnAcquire(s: State, s': State, n: nat, cubrid: bool)
    requires n < |s.nodes| && NodeOk(s, n) && Acquire(s, s', n, cubrid)
    ensures |s'.nodes| == |s.nodes| && NodeOk(s', n)
  {
  }

  lemma OwnWork(s: State, s': State, n: nat)
    requires n < |s.nodes| && NodeOk(s, n) && Work(s, s', n)
    ensures |s'.nodes| == |s.nodes| && NodeOk(s', n)
  {
  }

  lemma OwnRelease(s: State, s': State, n: nat)
    requires n < |s.nodes| && NodeOk(s, n) && Release(s, s', n) && !Torn(s, s', n)
    ensures |s'.nodes| == |s.nodes| && NodeOk(s', n)
  {
  }

  ghost predicate Moves(s: State, s': State, cubrid: bool) {
    exists n :: Step(s, s', n, cubrid)
  }

  ghost predicate MovesWhole(s: State, s': State, cubrid: bool) {
    exists n :: Step(s, s', n, cubrid) && !Torn(s, s', n)
  }

  ghost predicate IsRun(run: seq<State>, cubrid: bool) {
    |run| >= 1 && Init(run[0], cubrid) && forall i | 0 < i < |run| :: Moves(run[i - 1], run[i], cubrid)
  }

  // No final rollback of a release failed on top of its commit.
  ghost predicate IsWholeRun(run: seq<State>, cubrid: bool) {
    |run| >= 1 && Init(run[0], cubrid) && forall i | 0 < i < |run| :: MovesWhole(run[i - 1], run[i], cubrid)
  }

  /** Mutual exclusion over all interleavings of any number of nodes, whatever the reads returned
      and whatever calls failed, as long as no release was torn. */
  lemma {:induction false} RunSafe(run: seq<State>, cubrid: bool)
    requires IsWholeRun(run, cubrid)
    ensures Inv(run[|run| - 1], cubrid) && MutualExclusion(run[|run| - 1])
  {
    hide Step, Torn, NodeOk;
    if |run| == 1 {
      InitInv(run[0], cubrid);
    } else {
      var before := run[..|run| - 1];
      RunSafe(before, cubrid);
      var s, s' := run[|run| - 2], run[|run| - 1];
      assert before[|before| - 1] == s && MovesWhole(s, s', cubrid);
      var n :| Step(s, s', n, cubrid) && !Torn(s, s', n);
      StepInv(s, s', n, cubrid);
    }
    InvExcludes(run[|run| - 1], cubrid);
  }

  lemma InvExcludes(s: State, cubrid: bool)
    requires Inv(s, cubrid)
    ensures MutualExclusion(s)
  {
    forall m, n | 0 <= m < |s.nodes| && 0 <= n < |s.nodes| && Inside(s.nodes[m]) && Inside(s.nodes[n]) ensures m == n {
      assert NodeOk(s, m) && NodeOk(s, n);
    }
  }

  /** Only the holder, inside its release, makes the row available again: not a node that timed out or failed. */
  lemma OnlyHolderReleases(s: State, s': State, n: nat, cubrid: bool)
    requires Inv(s, cubrid) && Step(s, s', n, cubrid) && s.row == LOCKED && s'.row != LOCKED
    ensures n < |s.nodes| && s.nodes[n].hasChangeLogLock && s.nodes[n].pc == Freed && !s'.nodes[n].hasChangeLogLock
  {
    hide NodeOk;
    StepWriter(s, s', n, cubrid);
    HolderWrites(s, n, cubrid);
  }

  lemma HolderWrites(s: State, n: nat, cubrid: bool)
    requires Inv(s, cubrid) && Writes(s, n) && s.writer.value.value != LOCKED
    ensures n < |s.nodes| && s.nodes[n].hasChangeLogLock && (s.nodes[n].pc.Freed? || s.nodes[n].pc.Leaving?)
  {
    assert NodeOk(s, n);
  }

  // The lock as one owner at most.
  ghost predicate OwnedBy(s: State, owner: Option<nat>) {
    match owner
    case None => forall n | 0 <= n < |s.nodes| :: !s.nodes[n].hasChangeLogLock
    case Some(o) => o < |s.nodes| && forall n | 0 <= n < |s.nodes| :: s.nodes[n].hasChangeLogLock <==> n == o
  }

  /** The protocol refines a lock that one owner takes when it is free and gives back: every step keeps the owner,
      or the stepping node becomes the owner of a free lock, or stops being its owner. */
  lemma RefinesLock(s: State, s': State, n: nat, cubrid: bool, owner: Option<nat>)
    returns (owner': Option<nat>)
    requires Inv(s, cubrid) && Step(s, s', n, cubrid) && OwnedBy(s, owner)
    ensures OwnedBy(s', owner')
    ensures owner' == owner || (owner == None && owner' == Some(n)) || (owner == Some(n) && owner' == None)
  {
    hide Step, Inv;
    StepFrame(s, s', n, cubrid);
    if owner.Some? { assert s.nodes[owner.value].hasChangeLogLock; }
    if s'.nodes[n].hasChangeLogLock && !s.nodes[n].hasChangeLogLock {
      WonAlone(s, n, cubrid);
      owner' := Some(n);
    } else if !s'.nodes[n].hasChangeLogLock && s.nodes[n].hasChangeLogLock {
      owner' := None;
    } else {
      owner' := owner;
    }
  }

  // A value that the update takes for unlocked is read as unlocked, and one that it writes as locked.
  /** What each value means: T, a number other than 0 and true are locked; F, 0, false, nothing and values of other
      types are not; other strings are refused. */
  lemma ValuesMean(v: SqlValue)
    ensures v in [Null, Other, Str("F"), Str("0"), Str(""), Int(0), Long(0), Bool(false)] ==>
      CheckReturnValue(v) == Some(false)
    ensures v == Str("T") || v == Bool(true) || (v.Int? && v.i != 0) || (v.Long? && v.l != 0) ==>
      CheckReturnValue(v) == Some(true)
    ensures v.Str? && v.s != "" && v.s[0] > ' ' && v.s[|v.s| - 1] > ' ' && v.s !in ["T", "F", "0"] ==>
      CheckReturnValue(v) == None
  {
    assert TrimLeft("F") == "F" && TrimRight("F") == "F";
    assert TrimLeft("0") == "0" && TrimRight("0") == "0";
    assert TrimLeft("T") == "T" && TrimRight("T") == "T";
  }

  // Blanks around a value make no difference.
  lemma {:induction false} BlanksOff(before: string, s: string, behind: string)
    requires (forall c | c in before + behind :: c <= ' ') && s != "" && s[0] > ' ' && s[|s| - 1] > ' '
    ensures TrimRight(TrimLeft(before + s + behind)) == s
    decreases |before| + |behind|
  {
    var t := before + s + behind;
    if before != "" {
      assert before[0] in before + behind && t[1..] == before[1..] + s + behind;
      assert forall c | c in before[1..] + behind :: c in before + behind;
      BlanksOff(before[1..], s, behind);
    } else if behind != "" {
      var front := behind[..|behind| - 1];
      assert behind[|behind| - 1] in before + behind && t[..|t| - 1] == before + s + front && t[0] == s[0];
      assert forall c | c in before + front :: c in before + behind;
      BlanksOff(before, s, front);
      assert (before + s + front)[0] == s[0];
    } else {
      assert t == s;
    }
  }

  lemma BlanksMean(before: string, s: string, behind: string)
    requires (forall c | c in before + behind :: c <= ' ') && s != "" && s[0] > ' ' && s[|s| - 1] > ' '
    ensures CheckReturnValue(Str(before + s + behind)) == CheckReturnValue(Str(s))
  {
    hide TrimLeft, TrimRight;
    BlanksOff(before, s, behind);
    BlanksOff("", s, "");
    assert "" + s + "" == s;
  }

  lemma TakeableIsUnlocked(cubrid: bool, locked: string)
    ensures Takeable(cubrid, locked) ==> CheckReturnValue(Str(locked)) == Some(false)
    ensures CheckReturnValue(Str(LOCKED)) == Some(true) && !Takeable(cubrid, LOCKED)
  {
    assert TrimLeft("F") == "F" && TrimRight("F") == "F";
    assert TrimLeft("0") == "0" && TrimRight("0") == "0";
    assert TrimLeft("T") == "T" && TrimRight("T") == "T";
  }

  // A path from s to e without a torn release, whatever else fails.
  ghost predicate IsPath(path: seq<State>, s: State, e: State, cubrid: bool) {
    && |path| >= 1 && path[0] == s && path[|path| - 1] == e
    && forall i | 0 < i < |path| :: MovesWhole(path[i - 1], path[i], cubrid)
  }

  lemma Here(s: State, cubrid: bool)
    ensures IsPath([s], s, s, cubrid)
  {
  }

  lemma Onward(path: seq<State>, s: State, e: State, e': State, n: nat, cubrid: bool) returns (longer: seq<State>)
    requires IsPath(path, s, e, cubrid) && Step(e, e', n, cubrid) && !Torn(e, e', n)
    ensures IsPath(longer, s, e', cubrid)
  {
    hide Step, Torn;
    longer := path + [e'];
    forall i | 0 < i < |longer| ensures MovesWhole(longer[i - 1], longer[i], cubrid) {
      if i < |path| { assert MovesWhole(path[i - 1], path[i], cubrid); }
    }
  }

  // A node gets the free lock.
  lemma Locks(path0: seq<State>, s0: State, s: State, n: nat, seen: SqlValue, cubrid: bool) returns (path: seq<State>)
    requires IsPath(path0, s0, s, cubrid) && Checked(seen) == Trying
    requires n < |s.nodes| && s.nodes[n] == Node(Idle, false) && s.writer == None
    requires s.row == "F" || (cubrid && s.row == "0")
    ensures IsPath(path, s0, s.(row := LOCKED, nodes := s.nodes[n := Node(Critical, true)]), cubrid)
  {
    hide IsPath;
    var s1, s2, s3, s4 := At(s, n, Waiting), At(s, n, Acquiring), At(s, n, Checking), At(s, n, Trying);
    path := Onward(path0, s0, s, s1, n, cubrid);
    path := Onward(path, s0, s1, s2, n, cubrid);
    path := Onward(path, s0, s2, s3, n, cubrid);
    assert s4 == At(s3, n, Checked(seen));
    path := Onward(path, s0, s3, s4, n, cubrid);
    path := Wins(path, s0, s4, n, cubrid);
    assert s.(row := LOCKED, nodes := s.nodes[n := Node(Critical, true)])
        == s4.(row := LOCKED, nodes := s4.nodes[n := Node(Critical, true)]);
  }

  lemma Wins(path0: seq<State>, s0: State, s: State, n: nat, cubrid: bool) returns (path: seq<State>)
    requires IsPath(path0, s0, s, cubrid)
    requires n < |s.nodes| && s.nodes[n] == Node(Trying, false) && s.writer == None
    requires s.row == "F" || (cubrid && s.row == "0")
    ensures IsPath(path, s0, s.(row := LOCKED, nodes := s.nodes[n := Node(Critical, true)]), cubrid)
  {
    hide IsPath;
    var w := At(s.(writer := Some(Writer(n, LOCKED))), n, Won);
    var l := Holding(At(s.(row := LOCKED), n, Finishing(Got)), n, true);
    path := Onward(path0, s0, s, w, n, cubrid);
    path := Onward(path, s0, w, l, n, cubrid);
    path := Onward(path, s0, l, At(l, n, Critical), n, cubrid);
    assert At(l, n, Critical) == s.(row := LOCKED, nodes := s.nodes[n := Node(Critical, true)]);
  }

  // The holder releases, but its commit fails.
  lemma FailsToCommit(path0: seq<State>, s0: State, s: State, n: nat, cubrid: bool) returns (path: seq<State>)
    requires IsPath(path0, s0, s, cubrid)
    requires n < |s.nodes| && s.nodes[n] == Node(Critical, true) && s.writer == None
    ensures IsPath(path, s0, At(s.(writer := Some(Writer(n, UNLOCKED))), n, Leaving), cubrid)
  {
    hide IsPath;
    var w := s.(writer := Some(Writer(n, UNLOCKED)));
    var s1, s2, s3, s4 := At(s, n, Releasing), At(s, n, Freeing), At(w, n, Freed), At(w, n, Leaving);
    path := Onward(path0, s0, s, s1, n, cubrid);
    path := Onward(path, s0, s1, s2, n, cubrid);
    path := Onward(path, s0, s2, s3, n, cubrid);
    path := Onward(path, s0, s3, s4, n, cubrid);
  }

  // After a torn release the node starts again with the lock it still has, and its work commits the unlock.
  lemma StartsAgain(path0: seq<State>, s0: State, s: State, n: nat, cubrid: bool) returns (path: seq<State>)
    requires IsPath(path0, s0, s, cubrid)
    requires n < |s.nodes| && s.nodes[n] == Node(Idle, true) && s.writer == Some(Writer(n, UNLOCKED))
    ensures IsPath(path, s0, s.(row := UNLOCKED, writer := None, nodes := s.nodes[n := Node(Critical, true)]), cubrid)
  {
    hide IsPath;
    var s2, s3 := At(s, n, Waiting), At(s, n, Critical);
    path := Onward(path0, s0, s, s2, n, cubrid);
    path := Onward(path, s0, s2, s3, n, cubrid);
    path := Onward(path, s0, s3, Committed(s3, n), n, cubrid);
  }

  // A node that neither has the lock nor writes the row can give up what it does.
  lemma {:induction false} GoesIdle(path0: seq<State>, s0: State, s: State, n: nat,
      cubrid: bool) returns (path: seq<State>)
    requires IsPath(path0, s0, s, cubrid)
    requires n < |s.nodes| && NodeOk(s, n) && !s.nodes[n].hasChangeLogLock && !Writes(s, n)
    ensures IsPath(path, s0, At(s, n, Idle), cubrid)
    decreases ToIdle(s.nodes[n].pc)
  {
    hide IsPath;
    var pc := s.nodes[n].pc;
    if pc.Idle? {
      assert At(s, n, Idle) == s;
      path := path0;
    } else if pc.Acquiring? || pc.Checking? || pc.Trying? {
      path := GivesUp(path0, s0, s, At(s, n, Finishing(Failed)), n, cubrid);
    } else if pc.Finishing? {
      path := GivesUp(path0, s0, s, At(s, n, Onwards(pc.next)), n, cubrid);
    } else {
      path := Onward(path0, s0, s, At(s, n, Idle), n, cubrid);
    }
  }

  lemma GivesUp(path0: seq<State>, s0: State, s: State, s': State, n: nat, cubrid: bool) returns (path: seq<State>)
    requires IsPath(path0, s0, s, cubrid) && Step(s, s', n, cubrid) && !Torn(s, s', n)
    requires n < |s.nodes| && s' == At(s, n, s'.nodes[n].pc) && NodeOk(s', n)
    requires !s'.nodes[n].hasChangeLogLock && !Writes(s', n) && ToIdle(s'.nodes[n].pc) < ToIdle(s.nodes[n].pc)
    ensures IsPath(path, s0, At(s, n, Idle), cubrid)
    decreases ToIdle(s.nodes[n].pc), 0
  {
    hide IsPath, Step, Torn, NodeOk;
    path := Onward(path0, s0, s, s', n, cubrid);
    path := GoesIdle(path, s0, s', n, cubrid);
    assert At(s', n, Idle) == At(s, n, Idle);
  }

  // How many steps it is from giving up.
  function ToIdle(pc: Pc): nat {
    match pc
    case Idle => 0
    case Waiting => 1
    case Finishing(_) => 2
    case _ => 3
  }

  /** A node can get inside from a free row, whichever of the values that are not locked it reads before. */
  lemma FreeRowLets(s: State, n: nat, seen: SqlValue, cubrid: bool) returns (path: seq<State>)
    requires n < |s.nodes| && s.nodes[n] == Node(Idle, false) && s.writer == None
    requires s.row == "F" || (cubrid && s.row == "0")
    requires seen in [Null, Str("F"), Str("0"), Int(0), Long(0), Bool(false)]
    ensures Checked(seen) == Trying
    ensures IsPath(path, s, s.(row := "T", nodes := s.nodes[n := Node(Critical, true)]), cubrid)
  {
    hide IsPath, CheckReturnValue;
    ValuesMean(seen);
    Here(s, cubrid);
    path := Locks([s], s, s, n, seen, cubrid);
  }

  // And not from a row that is taken: it has to try again.
  lemma TakenRowWaits(s: State, s': State, n: nat, cubrid: bool)
    requires n < |s.nodes| && s.nodes[n].pc == Trying && s.row == "T" && Step(s, s', n, cubrid)
    ensures s'.row == "T" && s'.writer == s.writer
    ensures s'.nodes[n].pc == Finishing(Again) || s'.nodes[n].pc == Finishing(Failed)
  {
  }

  /** After a torn release any other node can get inside together with the one whose release it was. */
  lemma EveryTearIsUnsafe(s: State, s': State, n: nat, m: nat, cubrid: bool) returns (path: seq<State>, e: State)
    requires Inv(s, cubrid) && Step(s, s', n, cubrid) && Torn(s, s', n) && m < |s.nodes| && m != n
    ensures IsPath(path, s', e, cubrid) && !MutualExclusion(e)
  {
    hide Step, IsPath;
    TornState(s, s', n, m, cubrid);
    Here(s', cubrid);
    path := GoesIdle([s'], s', s', m, cubrid);
    var s1 := At(s', m, Idle);
    path := StartsAgain(path, s', s1, n, cubrid);
    var s2 := s1.(row := UNLOCKED, writer := None, nodes := s1.nodes[n := Node(Critical, true)]);
    path := Locks(path, s', s2, m, Null, cubrid);
    e := s2.(row := LOCKED, nodes := s2.nodes[m := Node(Critical, true)]);
    assert Inside(e.nodes[m]) && Inside(e.nodes[n]);
  }

  // What a torn release leaves behind.
  lemma TornState(s: State, s': State, n: nat, m: nat, cubrid: bool)
    requires Inv(s, cubrid) && Step(s, s', n, cubrid) && Torn(s, s', n) && m < |s.nodes| && m != n
    ensures |s'.nodes| == |s.nodes| && s'.nodes[n] == Node(Idle, true) && s'.writer == Some(Writer(n, UNLOCKED))
    ensures NodeOk(s', m) && !s'.nodes[m].hasChangeLogLock && !Writes(s', m)
  {
    assert NodeOk(s, n) && NodeOk(s, m);
  }

  // Wherever a run got to, going on without a torn release keeps the nodes apart.
  ghost predicate Secure(run: seq<State>, cubrid: bool) {
    forall k, path, e | 0 <= k < |run| && IsPath(path, run[k], e, cubrid) :: MutualExclusion(e)
  }

  /** The exact condition: a run of two nodes or more is secure if and only if no release in it was torn. */
  lemma SecureIffWhole(run: seq<State>, cubrid: bool)
    requires IsRun(run, cubrid) && |run[0].nodes| >= 2
    ensures Secure(run, cubrid) <==> IsWholeRun(run, cubrid)
  {
    hide IsPath, Step, Torn, Moves, MovesWhole;
    if IsWholeRun(run, cubrid) {
      forall k, path, e | 0 <= k < |run| && IsPath(path, run[k], e, cubrid) ensures MutualExclusion(e) {
        WholeGoesOn(run, k, path, e, cubrid);
      }
    } else {
      var i: nat := FirstTear(run, cubrid);
      var n, m := TearIn(run, i, cubrid);
      var path, e := EveryTearIsUnsafe(run[i - 1], run[i], n, m, cubrid);
      assert IsPath(path, run[i], e, cubrid);
    }
  }

  lemma WholeGoesOn(run: seq<State>, k: nat, path: seq<State>, e: State, cubrid: bool)
    requires IsWholeRun(run, cubrid) && k < |run| && IsPath(path, run[k], e, cubrid)
    ensures MutualExclusion(e)
  {
    hide MovesWhole, Inv, MutualExclusion;
    var all := run[..k] + path;
    forall i | 0 < i < |all| ensures MovesWhole(all[i - 1], all[i], cubrid) {
      if i <= k {
        assert MovesWhole(run[i - 1], run[i], cubrid);
      } else {
        assert MovesWhole(path[i - k - 1], path[i - k], cubrid);
      }
    }
    RunSafe(all, cubrid);
  }

  lemma {:induction false} FirstTear(run: seq<State>, cubrid: bool) returns (i: nat)
    requires IsRun(run, cubrid) && !IsWholeRun(run, cubrid)
    ensures 0 < i < |run| && IsWholeRun(run[..i], cubrid) && !MovesWhole(run[i - 1], run[i], cubrid)
    decreases |run|
  {
    hide MovesWhole, Moves;
    var before := run[..|run| - 1];
    if |run| > 1 && !IsWholeRun(before, cubrid) {
      forall k | 0 < k < |before| ensures Moves(before[k - 1], before[k], cubrid) {
        assert Moves(run[k - 1], run[k], cubrid);
      }
      i := FirstTear(before, cubrid);
      assert before[..i] == run[..i];
    } else {
      i := |run| - 1;
      forall k | 0 < k < |run| && k < i ensures MovesWhole(run[k - 1], run[k], cubrid) {
        assert MovesWhole(before[k - 1], before[k], cubrid);
      }
    }
  }

  // The step of the first torn release, and another node.
  lemma TearIn(run: seq<State>, i: nat, cubrid: bool) returns (n: nat, m: nat)
    requires IsRun(run, cubrid) && |run[0].nodes| >= 2 && 0 < i < |run|
    requires IsWholeRun(run[..i], cubrid) && !MovesWhole(run[i - 1], run[i], cubrid)
    ensures Inv(run[i - 1], cubrid) && Step(run[i - 1], run[i], n, cubrid) && Torn(run[i - 1], run[i], n)
    ensures m < |run[i - 1].nodes| && m != n
  {
    hide Step, Torn, Inv;
    RunSafe(run[..i], cubrid);
    SameNodes(run[..i], cubrid);
    assert Moves(run[i - 1], run[i], cubrid);
    n :| Step(run[i - 1], run[i], n, cubrid);
    m := if n == 0 then 1 else 0;
  }

  lemma {:induction false} SameNodes(run: seq<State>, cubrid: bool)
    requires IsWholeRun(run, cubrid)
    ensures |run[|run| - 1].nodes| == |run[0].nodes|
  {
    hide Step, Torn;
    if |run| > 1 {
      var before := run[..|run| - 1];
      SameNodes(before, cubrid);
      assert MovesWhole(run[|run| - 2], run[|run| - 1], cubrid);
      var n :| Step(run[|run| - 2], run[|run| - 1], n, cubrid);
      StepFrame(run[|run| - 2], run[|run| - 1], n, cubrid);
    }
  }

  /** An instance: a run of two nodes with one torn release that ends with both of them inside. */
  lemma TornUnsafe(cubrid: bool) returns (run: seq<State>)
    ensures IsRun(run, cubrid) && |run[0].nodes| == 2 && !MutualExclusion(run[|run| - 1])
  {
    hide IsPath;
    var s := State(UNLOCKED, None, [Node(Idle, false), Node(Idle, false)]);
    Here(s, cubrid);
    InitInv(s, cubrid);
    var a := s.(row := LOCKED, nodes := s.nodes[0 := Node(Critical, true)]);
    var b := At(a.(writer := Some(Writer(0, UNLOCKED))), 0, Leaving);
    var c := At(b, 0, Idle);
    var path := Locks([s], s, s, 0, Null, cubrid);
    path := FailsToCommit(path, s, a, 0, cubrid);
    assert Step(b, c, 0, cubrid) && Torn(b, c, 0);
    assert Moves(b, c, cubrid);
    Reaches(path, s, b, cubrid);
    var rest, e := EveryTearIsUnsafe(b, c, 0, 1, cubrid);
    run := Together(path, rest, s, b, c, e, cubrid);
  }

  lemma Reaches(path: seq<State>, s: State, e: State, cubrid: bool)
    requires IsPath(path, s, e, cubrid) && Init(s, cubrid)
    ensures Inv(e, cubrid)
  {
    RunSafe(path, cubrid);
  }

  lemma Together(a: seq<State>, b: seq<State>, s: State, t: State, t': State, e: State,
      cubrid: bool) returns (run: seq<State>)
    requires IsPath(a, s, t, cubrid) && Moves(t, t', cubrid) && IsPath(b, t', e, cubrid) && Init(s, cubrid)
    ensures IsRun(run, cubrid) && run[0] == s && run[|run| - 1] == e
  {
    hide Step, Torn;
    run := a + b;
    forall i | 0 < i < |run| ensures Moves(run[i - 1], run[i], cubrid) {
      if i < |a| {
        assert MovesWhole(a[i - 1], a[i], cubrid);
      } else if i > |a| {
        assert MovesWhole(b[i - |a| - 1], b[i - |a|], cubrid);
      }
    }
  }
}
