/** Locks of transactions: the container's transaction mutex and read-write mutex, the per-path lock of the process, and
    the lock on the file itself. */
module Locks {

  /** Where a thread is; a state named for a lock waits for it.  What a thread holds follows from where it is. */
  datatype Place =
    | Rest
    | BeginTx(c: nat) | BeginMu(c: nat) | BeginPath(c: nat) | BeginFile(c: nat) | Loading(c: nat)
    | FailPath(c: nat) | FailMu(c: nat) | FailTx(c: nat)
    | InTx(c: nat)
    | TxRead(c: nat, other: nat) | TxReading(c: nat, other: nat) | TxList(c: nat, other: nat) | TxListing(c: nat, other: nat)
    | CommitRead(c: nat) | CommitReading(c: nat) | CommitWriting(c: nat) | CommitMu(c: nat) | Installing(c: nat)
    | ReleaseFile(c: nat) | ReleasePath(c: nat) | ReleaseTx(c: nat)
    | Read(c: nat) | Reading(c: nat) | List(c: nat) | Listing(c: nat)
    | CloseMu(c: nat) | Closing(c: nat)
    | RepairPath(c: nat) | RepairFile(c: nat) | Repairing(c: nat) | RepairRelease(c: nat)

  /** Containers are handles; two of them may have the same path, and two paths may name the same file. */
  datatype Names = Names(path: nat -> nat, inode: nat -> nat)

  datatype State = State(at: seq<Place>, closed: set<nat>)

  // ---------- what a thread holds ----------

  predicate HoldsTx(x: Place, c: nat)
  {
    match x
    case Rest | BeginTx(_) | Read(_) | Reading(_) | List(_) | Listing(_)
      | RepairPath(_) | RepairFile(_) | Repairing(_) | RepairRelease(_) => false
    case _ => x.c == c
  }

  /** The read-write mutex held for writing. */
  predicate Writes(x: Place, c: nat)
  {
    match x
    case BeginPath(k) => k == c
    case BeginFile(k) => k == c
    case Loading(k) => k == c
    case FailPath(k) => k == c
    case FailMu(k) => k == c
    case Installing(k) => k == c
    case Listing(k) => k == c
    case TxListing(_, k) => k == c
    case Closing(k) => k == c
    case _ => false
  }

  predicate Reads(x: Place, c: nat)
  {
    match x
    case Reading(k) => k == c
    case CommitReading(k) => k == c
    case TxReading(_, k) => k == c
    case _ => false
  }

  /** Waiting to write; a waiting writer keeps new readers out. */
  predicate WantsWrite(x: Place, c: nat)
  {
    match x
    case BeginMu(k) => k == c
    case CommitMu(k) => k == c
    case List(k) => k == c
    case TxList(_, k) => k == c
    case CloseMu(k) => k == c
    case _ => false
  }

  /** An open transaction, from the moment its map is loaded to the moment it lets go of the file. */
  predicate Active(x: Place)
  {
    || x.InTx? || x.TxRead? || x.TxReading? || x.TxList? || x.TxListing? || x.CommitRead? || x.CommitReading?
    || x.CommitWriting? || x.CommitMu? || x.Installing? || x.ReleaseFile?
  }

  predicate HoldsFile(x: Place)
  {
    x.Loading? || Active(x) || x.Repairing?
  }

  predicate HoldsPath(x: Place)
  {
    x.BeginFile? || x.FailPath? || x.ReleasePath? || x.RepairFile? || x.RepairRelease? || HoldsFile(x)
  }

  predicate OnPath(n: Names, x: Place, path: nat)
  {
    HoldsPath(x) && n.path(x.c) == path
  }

  predicate OnFile(n: Names, x: Place, inode: nat)
  {
    HoldsFile(x) && n.inode(x.c) == inode
  }

  // ---------- moves ----------

  predicate TxFree(s: State, t: nat, c: nat)
  {
    forall u :: 0 <= u < |s.at| && u != t ==> !HoldsTx(s.at[u], c)
  }

  predicate MuFree(s: State, t: nat, c: nat)
  {
    forall u :: 0 <= u < |s.at| && u != t ==> !Writes(s.at[u], c) && !Reads(s.at[u], c)
  }

  predicate MuReadable(s: State, t: nat, c: nat)
  {
    forall u :: 0 <= u < |s.at| && u != t ==> !Writes(s.at[u], c) && !WantsWrite(s.at[u], c)
  }

  predicate PathFree(n: Names, s: State, t: nat, c: nat)
  {
    forall u :: 0 <= u < |s.at| && u != t ==> !OnPath(n, s.at[u], n.path(c))
  }

  predicate FileFree(n: Names, s: State, t: nat, c: nat)
  {
    forall u :: 0 <= u < |s.at| && u != t ==> !OnFile(n, s.at[u], n.inode(c))
  }

  /** Thread t may go to place y. */
  predicate Move(n: Names, s: State, t: nat, y: Place)
    requires t < |s.at|
  {
    match s.at[t]
    case Rest => y.BeginTx? || y.Read? || y.List? || y.RepairPath? || (y.CloseMu? && TxFree(s, t, y.c))
    case BeginTx(c) => y == BeginMu(c) && TxFree(s, t, c)
    case BeginMu(c) => y == BeginPath(c) && MuFree(s, t, c)
    case BeginPath(c) => if c in s.closed then y == FailTx(c) else y == BeginFile(c) && PathFree(n, s, t, c)
    case BeginFile(c) => FileFree(n, s, t, c) && (y == Loading(c) || y == FailMu(c))
    case Loading(c) => y == InTx(c) || y == FailPath(c)
    case FailPath(c) => y == FailMu(c)
    case FailMu(c) => y == FailTx(c)
    case FailTx(_) => y == Rest
    case InTx(c) => y == CommitRead(c) || y == ReleaseFile(c) || ((y.TxRead? || y.TxList?) && y.c == c)
    case TxRead(c, k) => y == TxReading(c, k) && MuReadable(s, t, k)
    case TxReading(c, _) => y == InTx(c)
    case TxList(c, k) => y == TxListing(c, k) && MuFree(s, t, k)
    case TxListing(c, _) => y == InTx(c)
    case CommitRead(c) => y == CommitReading(c) && MuReadable(s, t, c)
    case CommitReading(c) => y == CommitWriting(c)
    case CommitWriting(c) => y == CommitMu(c) || y == ReleaseFile(c)
    case CommitMu(c) => y == Installing(c) && MuFree(s, t, c)
    case Installing(c) => y == ReleaseFile(c)
    case ReleaseFile(c) => y == ReleasePath(c)
    case ReleasePath(c) => y == ReleaseTx(c)
    case ReleaseTx(_) => y == Rest
    case Read(c) => y == Reading(c) && MuReadable(s, t, c)
    case Reading(_) => y == Rest
    case List(c) => y == Listing(c) && MuFree(s, t, c)
    case Listing(_) => y == Rest
    case CloseMu(c) => y == Closing(c) && MuFree(s, t, c)
    case Closing(_) => y == Rest
    case RepairPath(c) => y == RepairFile(c) && PathFree(n, s, t, c)
    case RepairFile(c) => y == Repairing(c) && FileFree(n, s, t, c)
    case Repairing(c) => y == RepairRelease(c)
    case RepairRelease(_) => y == Rest
  }

  function After(s: State, t: nat, y: Place): State
    requires t < |s.at|
  {
    State(s.at[t := y], if s.at[t].Closing? then s.closed + {s.at[t].c} else s.closed)
  }

  ghost predicate Step(n: Names, s: State, s2: State)
  {
    exists t, y :: 0 <= t < |s.at| && Move(n, s, t, y) && s2 == After(s, t, y)
  }

  ghost predicate Execution(n: Names, states: seq<State>)
  {
    && |states| > 0 && (forall t :: 0 <= t < |states[0].at| ==> states[0].at[t].Rest?)
    && forall i :: 0 < i < |states| ==> Step(n, states[i - 1], states[i])
  }

  // ---------- mutual exclusion ----------

  ghost predicate Exclusive(n: Names, x: Place, y: Place)
  {
    && (forall c :: HoldsTx(x, c) ==> !HoldsTx(y, c))
    && (HoldsPath(x) ==> !OnPath(n, y, n.path(x.c))) && (HoldsFile(x) ==> !OnFile(n, y, n.inode(x.c)))
    && (forall c :: Writes(x, c) ==> !Writes(y, c) && !Reads(y, c))
    && (forall c :: Reads(x, c) ==> !Writes(y, c))
  }

  ghost predicate Mutex(n: Names, s: State)
  {
    forall t, u :: 0 <= t < |s.at| && 0 <= u < |s.at| && t != u ==> Exclusive(n, s.at[t], s.at[u])
  }

  /** A lock gained by a move was free. */
  lemma TxGained(n: Names, s: State, t: nat, y: Place, c: nat)
    requires t < |s.at| && Move(n, s, t, y) && HoldsTx(y, c)
    ensures HoldsTx(s.at[t], c) || TxFree(s, t, c)
  {
    hide TxFree, MuFree, MuReadable, PathFree, FileFree;
  }

  lemma MuGained(n: Names, s: State, t: nat, y: Place, c: nat)
    requires t < |s.at| && Move(n, s, t, y)
    ensures Writes(y, c) ==> Writes(s.at[t], c) || MuFree(s, t, c)
    ensures Reads(y, c) ==> Reads(s.at[t], c) || MuReadable(s, t, c)
  {
    hide TxFree, MuFree, MuReadable, PathFree, FileFree;
  }

  lemma PathGained(n: Names, s: State, t: nat, y: Place)
    requires t < |s.at| && Move(n, s, t, y)
    ensures HoldsPath(y) ==> (HoldsPath(s.at[t]) && s.at[t].c == y.c) || PathFree(n, s, t, y.c)
  {
    hide TxFree, MuFree, MuReadable, PathFree, FileFree;
  }

  lemma FileGained(n: Names, s: State, t: nat, y: Place)
    requires t < |s.at| && Move(n, s, t, y)
    ensures HoldsFile(y) ==> (HoldsFile(s.at[t]) && s.at[t].c == y.c) || FileFree(n, s, t, y.c)
  {
    hide TxFree, MuFree, MuReadable, PathFree, FileFree;
  }

  lemma MoveKeepsExclusive(n: Names, s: State, t: nat, y: Place, u: nat)
    requires t < |s.at| && Move(n, s, t, y) && u < |s.at| && u != t && Exclusive(n, s.at[t], s.at[u])
    ensures Exclusive(n, y, s.at[u]) && Exclusive(n, s.at[u], y)
  {
    hide Move, HoldsTx, Writes, Reads, HoldsPath, HoldsFile, WantsWrite;
    PathGained(n, s, t, y);
    FileGained(n, s, t, y);
    forall c
      ensures HoldsTx(y, c) ==> !HoldsTx(s.at[u], c)
      ensures Writes(y, c) ==> !Writes(s.at[u], c) && !Reads(s.at[u], c)
      ensures Reads(y, c) ==> !Writes(s.at[u], c)
    {
      if HoldsTx(y, c) { TxGained(n, s, t, y, c); }
      MuGained(n, s, t, y, c);
    }
    PathsApart(n, s, t, y, u);
  }

  lemma PathsApart(n: Names, s: State, t: nat, y: Place, u: nat)
    requires t < |s.at| && u < |s.at| && u != t && Exclusive(n, s.at[t], s.at[u])
    requires HoldsPath(y) ==> (HoldsPath(s.at[t]) && s.at[t].c == y.c) || PathFree(n, s, t, y.c)
    requires HoldsFile(y) ==> (HoldsFile(s.at[t]) && s.at[t].c == y.c) || FileFree(n, s, t, y.c)
    ensures (HoldsPath(y) ==> !OnPath(n, s.at[u], n.path(y.c))) && (HoldsFile(y) ==> !OnFile(n, s.at[u], n.inode(y.c)))
    ensures HoldsPath(s.at[u]) ==> !OnPath(n, y, n.path(s.at[u].c))
    ensures HoldsFile(s.at[u]) ==> !OnFile(n, y, n.inode(s.at[u].c))
  {
  }

  lemma MoveKeepsMutex(n: Names, s: State, t: nat, y: Place)
    requires t < |s.at| && Move(n, s, t, y) && Mutex(n, s)
    ensures Mutex(n, After(s, t, y))
  {
    hide Move, Exclusive;
    forall u, w | 0 <= u < |s.at| && 0 <= w < |s.at| && u != w
      ensures Exclusive(n, After(s, t, y).at[u], After(s, t, y).at[w])
    {
      if u == t { MoveKeepsExclusive(n, s, t, y, w); }
      else if w == t { MoveKeepsExclusive(n, s, t, y, u); }
    }
  }

  lemma {:induction false} ExecutionExcludes(n: Names, states: seq<State>, i: nat)
    requires Execution(n, states) && i < |states|
    ensures Mutex(n, states[i])
  {
    hide Move, After, Mutex;
    if i == 0 {
      RestExcludes(n, states[0]);
    } else {
      ExecutionExcludes(n, states, i - 1);
      assert Step(n, states[i - 1], states[i]);
      var t, y :| 0 <= t < |states[i - 1].at| && Move(n, states[i - 1], t, y) && states[i] == After(states[i - 1], t,
        y);
      MoveKeepsMutex(n, states[i - 1], t, y);
    }
  }

  lemma RestExcludes(n: Names, s: State)
    requires forall t :: 0 <= t < |s.at| ==> s.at[t].Rest?
    ensures Mutex(n, s)
  {
  }

  /** In every reachable state at most one transaction is active on a path, at most one on a file under whatever names,
      at most one on a container; and whoever holds a file's lock holds the lock of the path it opened it by. */
  lemma OneTransactionPerPath(n: Names, states: seq<State>, i: nat, t: nat, u: nat)
    requires Execution(n, states) && i < |states| && t < |states[i].at| && u < |states[i].at|
    ensures HoldsFile(states[i].at[t]) ==> HoldsPath(states[i].at[t])
    ensures Active(states[i].at[t]) && Active(states[i].at[u]) && t != u ==>
              && n.path(states[i].at[t].c) != n.path(states[i].at[u].c)
              && n.inode(states[i].at[t].c) != n.inode(states[i].at[u].c)
              && states[i].at[t].c != states[i].at[u].c
  {
    ExecutionExcludes(n, states, i);
    if t != u { assert Exclusive(n, states[i].at[t], states[i].at[u]); }
  }

  // ---------- no deadlock ----------

  /** A rank of the containers that is the same for containers of the same path or file, and that goes down with every
      look through another container: a thread that looks something up, reads, lists or verifies while its transaction is
      open does so through the container of its transaction or through one of lower rank. */
  ghost predicate Ranked(n: Names, s: State, rank: nat -> nat)
  {
    && (forall c, k :: n.path(c) == n.path(k) ==> rank(c) == rank(k))
    && (forall c, k :: n.inode(c) == n.inode(k) ==> rank(c) == rank(k))
    && forall t :: 0 <= t < |s.at| && (s.at[t].TxRead? || s.at[t].TxList?) ==>
         s.at[t].other == s.at[t].c || rank(s.at[t].other) < rank(s.at[t].c)
  }

  lemma RankedLook(n: Names, s: State, rank: nat -> nat, t: nat)
    requires Ranked(n, s, rank) && t < |s.at| && (s.at[t].TxRead? || s.at[t].TxList?)
    ensures s.at[t].other == s.at[t].c || rank(s.at[t].other) < rank(s.at[t].c)
  {
  }

  lemma SameRank(n: Names, s: State, rank: nat -> nat, c: nat, k: nat)
    requires Ranked(n, s, rank) && (n.path(c) == n.path(k) || n.inode(c) == n.inode(k))
    ensures rank(c) == rank(k)
  {
  }

  lemma AtRest(x: Place)
    ensures HoldsFile(x) ==> HoldsPath(x)
    ensures HoldsPath(x) ==> !x.Rest?
  {
  }

  /** A thread that has begun something can go on. */
  ghost predicate SomeoneMoves(n: Names, s: State)
  {
    exists t, y :: 0 <= t < |s.at| && !s.at[t].Rest? && Move(n, s, t, y)
  }

  lemma Moves(n: Names, s: State, t: nat, y: Place)
    requires t < |s.at| && !s.at[t].Rest? && Move(n, s, t, y)
    ensures SomeoneMoves(n, s)
  {
    hide Move;
  }

  /** Who waits to write gets the mutex when nobody holds it. */
  lemma WriterGoes(n: Names, s: State, u: nat, k: nat)
    requires u < |s.at| && WantsWrite(s.at[u], k) && MuFree(s, u, k)
    ensures SomeoneMoves(n, s)
  {
    hide MuFree;
    match s.at[u]
    case BeginMu(_) => Moves(n, s, u, BeginPath(k));
    case CommitMu(_) => Moves(n, s, u, Installing(k));
    case List(_) => Moves(n, s, u, Listing(k));
    case TxList(c, _) => Moves(n, s, u, TxListing(c, k));
    case CloseMu(_) => Moves(n, s, u, Closing(k));
  }

  /** So does who waits to read, unless somebody waits to write. */
  lemma ReaderGoes(n: Names, s: State, t: nat, k: nat)
    requires t < |s.at| && WantsRead(s.at[t], k) && MuReadable(s, t, k)
    ensures SomeoneMoves(n, s)
  {
    hide MuReadable;
    match s.at[t]
    case Read(_) => Moves(n, s, t, Reading(k));
    case TxRead(c, _) => Moves(n, s, t, TxReading(c, k));
    case CommitRead(_) => Moves(n, s, t, CommitReading(k));
  }

  predicate WantsRead(x: Place, c: nat)
  {
    match x
    case Read(k) => k == c
    case TxRead(_, k) => k == c
    case CommitRead(k) => k == c
    case _ => false
  }

  predicate Has(x: Place, k: nat)
  {
    Writes(x, k) || Reads(x, k)
  }

  /** A mutex that nobody holds goes to somebody who waits for it. */
  lemma FreeMuGoes(n: Names, s: State, t: nat, k: nat)
    requires t < |s.at| && (WantsRead(s.at[t], k) || WantsWrite(s.at[t], k))
    requires forall u :: 0 <= u < |s.at| ==> !Has(s.at[u], k)
    ensures SomeoneMoves(n, s)
  {
    hide SomeoneMoves, WantsRead, WantsWrite, Writes, Reads;
    if WantsWrite(s.at[t], k) {
      WriterGoes(n, s, t, k);
    } else if u :| 0 <= u < |s.at| && WantsWrite(s.at[u], k) {
      WriterGoes(n, s, u, k);
    } else {
      ReaderGoes(n, s, t, k);
    }
  }

  /** The one who holds a container's mutex while another thread has its transaction mutex is not waiting. */
  lemma LooserGoes(n: Names, s: State, u: nat, c: nat)
    requires u < |s.at| && Has(s.at[u], c) && !HoldsTx(s.at[u], c)
    ensures SomeoneMoves(n, s)
  {
    hide SomeoneMoves;
    match s.at[u]
    case Listing(_) => Moves(n, s, u, Rest);
    case Reading(_) => Moves(n, s, u, Rest);
    case TxReading(k, _) => Moves(n, s, u, InTx(k));
    case TxListing(k, _) => Moves(n, s, u, InTx(k));
    case _ =>
  }

  /** A thread that waits for the mutex of the container of its own transaction. */
  lemma OwnMuEnds(n: Names, s: State, t: nat, c: nat)
    requires Mutex(n, s) && t < |s.at| && HoldsTx(s.at[t], c) && !Has(s.at[t], c)
    requires WantsRead(s.at[t], c) || WantsWrite(s.at[t], c)
    ensures SomeoneMoves(n, s)
  {
    hide SomeoneMoves, WantsRead, WantsWrite, Has, HoldsTx;
    if u :| 0 <= u < |s.at| && Has(s.at[u], c) {
      assert Exclusive(n, s.at[t], s.at[u]);
      LooserGoes(n, s, u, c);
    } else {
      FreeMuGoes(n, s, t, c);
    }
  }

  // Each of the following waits for one of the earlier kind, of the same rank, or, looking through another container,
  // for a mutex of lower rank.

  lemma {:induction false} FileHolderEnds(n: Names, s: State, rank: nat -> nat, u: nat)
    requires Mutex(n, s) && Ranked(n, s, rank) && u < |s.at| && HoldsFile(s.at[u])
    ensures SomeoneMoves(n, s)
    decreases rank(s.at[u].c), 0
  {
    hide SomeoneMoves, Mutex, Ranked;
    match s.at[u]
    case Loading(c) => Moves(n, s, u, InTx(c));
    case InTx(c) => Moves(n, s, u, ReleaseFile(c));
    case TxReading(c, _) => Moves(n, s, u, InTx(c));
    case TxListing(c, _) => Moves(n, s, u, InTx(c));
    case CommitReading(c) => Moves(n, s, u, CommitWriting(c));
    case CommitWriting(c) => Moves(n, s, u, CommitMu(c));
    case Installing(c) => Moves(n, s, u, ReleaseFile(c));
    case ReleaseFile(c) => Moves(n, s, u, ReleasePath(c));
    case Repairing(c) => Moves(n, s, u, RepairRelease(c));
    case CommitRead(c) => OwnMuEnds(n, s, u, c);
    case CommitMu(c) => OwnMuEnds(n, s, u, c);
    case TxRead(c, k) =>
      RankedLook(n, s, rank, u);
      if k == c { OwnMuEnds(n, s, u, c); } else { MuWaitEnds(n, s, rank, u, k); }
    case TxList(c, k) =>
      RankedLook(n, s, rank, u);
      if k == c { OwnMuEnds(n, s, u, c); } else { MuWaitEnds(n, s, rank, u, k); }
  }

  lemma {:induction false} FileWaitEnds(n: Names, s: State, rank: nat -> nat, t: nat)
    requires Mutex(n, s) && Ranked(n, s, rank) && t < |s.at| && (s.at[t].BeginFile? || s.at[t].RepairFile?)
    ensures SomeoneMoves(n, s)
    decreases rank(s.at[t].c), 1
  {
    hide Mutex, Ranked, HoldsFile, SomeoneMoves;
    var c := s.at[t].c;
    if u :| 0 <= u < |s.at| && u != t && OnFile(n, s.at[u], n.inode(c)) {
      AtRest(s.at[u]);
      SameRank(n, s, rank, s.at[u].c, c);
      FileHolderEnds(n, s, rank, u);
    } else {
      Moves(n, s, t, if s.at[t].BeginFile? then Loading(c) else Repairing(c));
    }
  }

  lemma {:induction false} PathHolderEnds(n: Names, s: State, rank: nat -> nat, u: nat)
    requires Mutex(n, s) && Ranked(n, s, rank) && u < |s.at| && HoldsPath(s.at[u])
    ensures SomeoneMoves(n, s)
    decreases rank(s.at[u].c), 2
  {
    hide Mutex, Ranked, HoldsFile, SomeoneMoves;
    match s.at[u]
    case BeginFile(_) => FileWaitEnds(n, s, rank, u);
    case RepairFile(_) => FileWaitEnds(n, s, rank, u);
    case FailPath(c) => Moves(n, s, u, FailMu(c));
    case ReleasePath(c) => Moves(n, s, u, ReleaseTx(c));
    case RepairRelease(_) => Moves(n, s, u, Rest);
    case _ => FileHolderEnds(n, s, rank, u);
  }

  lemma {:induction false} PathWaitEnds(n: Names, s: State, rank: nat -> nat, t: nat)
    requires Mutex(n, s) && Ranked(n, s, rank) && t < |s.at| && (s.at[t].BeginPath? || s.at[t].RepairPath?)
    ensures SomeoneMoves(n, s)
    decreases rank(s.at[t].c), 3
  {
    hide Mutex, Ranked, HoldsPath, HoldsFile, SomeoneMoves;
    var c := s.at[t].c;
    if s.at[t].BeginPath? && c in s.closed {
      Moves(n, s, t, FailTx(c));
    } else if u :| 0 <= u < |s.at| && u != t && OnPath(n, s.at[u], n.path(c)) {
      AtRest(s.at[u]);
      SameRank(n, s, rank, s.at[u].c, c);
      PathHolderEnds(n, s, rank, u);
    } else {
      Moves(n, s, t, if s.at[t].BeginPath? then BeginFile(c) else RepairFile(c));
    }
  }

  /** Although Begin waits for path and file while it holds the container's mutex, its holder gets on. */
  lemma {:induction false} MuHolderEnds(n: Names, s: State, rank: nat -> nat, u: nat, k: nat)
    requires Mutex(n, s) && Ranked(n, s, rank) && u < |s.at| && Has(s.at[u], k)
    ensures SomeoneMoves(n, s)
    decreases rank(k), 4
  {
    hide Mutex, Ranked, HoldsPath, HoldsFile, HoldsTx, SomeoneMoves;
    match s.at[u]
    case BeginPath(_) => PathWaitEnds(n, s, rank, u);
    case BeginFile(_) => FileWaitEnds(n, s, rank, u);
    case Loading(c) => Moves(n, s, u, InTx(c));
    case FailPath(c) => Moves(n, s, u, FailMu(c));
    case FailMu(c) => Moves(n, s, u, FailTx(c));
    case Installing(c) => Moves(n, s, u, ReleaseFile(c));
    case Listing(_) => Moves(n, s, u, Rest);
    case Closing(_) => Moves(n, s, u, Rest);
    case Reading(_) => Moves(n, s, u, Rest);
    case CommitReading(c) => Moves(n, s, u, CommitWriting(c));
    case TxReading(c, _) => Moves(n, s, u, InTx(c));
    case TxListing(c, _) => Moves(n, s, u, InTx(c));
    case _ =>
  }

  lemma {:induction false} MuWaitEnds(n: Names, s: State, rank: nat -> nat, t: nat, k: nat)
    requires Mutex(n, s) && Ranked(n, s, rank) && t < |s.at| && (WantsRead(s.at[t], k) || WantsWrite(s.at[t], k))
    ensures SomeoneMoves(n, s)
    decreases rank(k), 5
  {
    hide Mutex, Ranked, HoldsPath, HoldsFile, HoldsTx, Has, WantsRead, WantsWrite, SomeoneMoves;
    if u :| 0 <= u < |s.at| && Has(s.at[u], k) {
      MuHolderEnds(n, s, rank, u, k);
    } else {
      FreeMuGoes(n, s, t, k);
    }
  }

  lemma TxHolderEnds(n: Names, s: State, rank: nat -> nat, u: nat, c: nat)
    requires Mutex(n, s) && Ranked(n, s, rank) && u < |s.at| && HoldsTx(s.at[u], c)
    ensures SomeoneMoves(n, s)
  {
    hide Mutex, Ranked, SomeoneMoves;
    match s.at[u]
    case BeginMu(_) => MuWaitEnds(n, s, rank, u, c);
    case CloseMu(_) => MuWaitEnds(n, s, rank, u, c);
    case BeginPath(_) => PathWaitEnds(n, s, rank, u);
    case FailMu(_) => Moves(n, s, u, FailTx(c));
    case FailTx(_) => Moves(n, s, u, Rest);
    case ReleaseTx(_) => Moves(n, s, u, Rest);
    case Closing(_) => Moves(n, s, u, Rest);
    case _ => PathHolderEnds(n, s, rank, u);
  }

  lemma TxWaitEnds(n: Names, s: State, rank: nat -> nat, t: nat)
    requires Mutex(n, s) && Ranked(n, s, rank) && t < |s.at| && s.at[t].BeginTx?
    ensures SomeoneMoves(n, s)
  {
    hide Mutex, Ranked, HoldsTx, SomeoneMoves;
    var c := s.at[t].c;
    if u :| 0 <= u < |s.at| && u != t && HoldsTx(s.at[u], c) {
      TxHolderEnds(n, s, rank, u, c);
    } else {
      Moves(n, s, t, BeginMu(c));
    }
  }

  lemma WaitEnds(n: Names, s: State, rank: nat -> nat, t: nat)
    requires Mutex(n, s) && Ranked(n, s, rank) && t < |s.at| && !s.at[t].Rest?
    ensures SomeoneMoves(n, s)
  {
    hide Mutex, Ranked, SomeoneMoves;
    if HoldsPath(s.at[t]) { PathHolderEnds(n, s, rank, t); }
    else if s.at[t].BeginTx? { TxWaitEnds(n, s, rank, t); }
    else if s.at[t].Read? || s.at[t].List? { MuWaitEnds(n, s, rank, t, s.at[t].c); }
    else if s.at[t].RepairPath? { PathWaitEnds(n, s, rank, t); }
    else if s.at[t].Reading? || s.at[t].Listing? { Moves(n, s, t, Rest); }
    else { TxHolderEnds(n, s, rank, t, s.at[t].c); }
  }

  /** No deadlock: with any number of threads and containers, each thread holding at most one open transaction, and
      looking, while it does, through its own container or ones of lower rank, some thread that has begun something can
      go on as long as there is one. */
  lemma NoDeadlock(n: Names, states: seq<State>, i: nat, t: nat, rank: nat -> nat)
    requires Execution(n, states) && i < |states| && Ranked(n, states[i], rank)
    requires t < |states[i].at| && !states[i].at[t].Rest?
    ensures SomeoneMoves(n, states[i])
  {
    hide Mutex, Execution, Ranked, SomeoneMoves;
    ExecutionExcludes(n, states, i);
    WaitEnds(n, states[i], rank, t);
  }

  /** A thread that looks only through the container of its transaction, or from a container outside a set into one of
      it.  That is how packing works: its transaction is on the new container, and it reads the original. */
  predicate ReadsFrom(s: State, sources: set<nat>)
  {
    forall t :: 0 <= t < |s.at| && (s.at[t].TxRead? || s.at[t].TxList?) ==>
      s.at[t].other == s.at[t].c || (s.at[t].other in sources && s.at[t].c !in sources)
  }

  /** Two ranks are enough for that: no deadlock as long as no source has the path or the file of a container that is
      not one.  With no sources at all, every thread looks through its own container. */
  lemma PackingNoDeadlock(n: Names, states: seq<State>, i: nat, t: nat, sources: set<nat>)
    requires Execution(n, states) && i < |states| && ReadsFrom(states[i], sources)
    requires forall c, k :: n.path(c) == n.path(k) ==> (c in sources <==> k in sources)
    requires forall c, k :: n.inode(c) == n.inode(k) ==> (c in sources <==> k in sources)
    requires t < |states[i].at| && !states[i].at[t].Rest?
    ensures SomeoneMoves(n, states[i])
  {
    hide Execution, SomeoneMoves;
    var rank: nat -> nat := c => if c in sources then 0 else 1;
    assert Ranked(n, states[i], rank);
    NoDeadlock(n, states, i, t, rank);
  }

  // ---------- where the guarantee ends ----------

  /** Reading through another handle of the same file from inside a transaction can deadlock: thread 0 has a
      transaction on container 0 and waits to read through container 1, whose mutex thread 1 holds while its Begin
      waits for the path that thread 0 has locked.  There is no rank, since the two containers have the same path. */
  lemma CrossReadDeadlocks()
    ensures exists n: Names, s: State :: Reachable(n, s) && Stuck(n, s) && forall rank :: !Ranked(n, s, rank)
  {
    hide Pair, Stuck, Reachable, Ranked;
    var n := Names(c => 0, c => 0);
    CrossReachable(n);
    PairStuck(n);
    NoRank(n);
  }

  lemma CrossReachable(n: Names)
    requires n == Names(c => 0, c => 0)
    ensures Reachable(n, Pair(TxRead(0, 1), BeginPath(1)))
  {
    hide Step, Pair, Reachable;
    StartReachable(n);
    FirstBegins(n);
    Extend(n, Pair(Rest, Rest), Pair(BeginTx(0), Rest));
    Extend(n, Pair(BeginTx(0), Rest), Pair(BeginMu(0), Rest));
    Extend(n, Pair(BeginMu(0), Rest), Pair(BeginPath(0), Rest));
    Extend(n, Pair(BeginPath(0), Rest), Pair(BeginFile(0), Rest));
    Extend(n, Pair(BeginFile(0), Rest), Pair(Loading(0), Rest));
    Extend(n, Pair(Loading(0), Rest), Pair(InTx(0), Rest));
    SecondBegins(n);
    Extend(n, Pair(InTx(0), Rest), Pair(InTx(0), BeginTx(1)));
    Extend(n, Pair(InTx(0), BeginTx(1)), Pair(InTx(0), BeginMu(1)));
    Extend(n, Pair(InTx(0), BeginMu(1)), Pair(InTx(0), BeginPath(1)));
    FirstReads(n);
    Extend(n, Pair(InTx(0), BeginPath(1)), Pair(TxRead(0, 1), BeginPath(1)));
  }

  lemma NoRank(n: Names)
    requires n.path(0) == n.path(1)
    ensures forall rank :: !Ranked(n, Pair(TxRead(0, 1), BeginPath(1)), rank)
  {
    forall rank: nat -> nat
      ensures !Ranked(n, Pair(TxRead(0, 1), BeginPath(1)), rank)
    {
      var s := Pair(TxRead(0, 1), BeginPath(1));
      assert s.at[0] == TxRead(0, 1);
      if Ranked(n, s, rank) {
        SameRank(n, s, rank, 0, 1);
        RankedLook(n, s, rank, 0);
      }
    }
  }

  ghost predicate Reachable(n: Names, s: State)
  {
    exists states :: Execution(n, states) && states[|states| - 1] == s
  }

  lemma Extend(n: Names, s: State, s2: State)
    requires Reachable(n, s) && Step(n, s, s2)
    ensures Reachable(n, s2)
  {
    hide Step;
    var states :| Execution(n, states) && states[|states| - 1] == s;
    var more := states + [s2];
    assert Execution(n, more) && more[|more| - 1] == s2;
  }

  lemma StartReachable(n: Names)
    ensures Reachable(n, Pair(Rest, Rest))
  {
    var states := [Pair(Rest, Rest)];
    assert Execution(n, states) && states[|states| - 1] == Pair(Rest, Rest);
  }

  lemma FirstBegins(n: Names)
    ensures Step(n, Pair(Rest, Rest), Pair(BeginTx(0), Rest))
    ensures Step(n, Pair(BeginTx(0), Rest), Pair(BeginMu(0), Rest))
    ensures Step(n, Pair(BeginMu(0), Rest), Pair(BeginPath(0), Rest))
    ensures Step(n, Pair(BeginPath(0), Rest), Pair(BeginFile(0), Rest))
    ensures Step(n, Pair(BeginFile(0), Rest), Pair(Loading(0), Rest))
    ensures Step(n, Pair(Loading(0), Rest), Pair(InTx(0), Rest))
  {
    hide Step;
    FirstMoves(n, Rest, Rest, BeginTx(0));
    FirstMoves(n, BeginTx(0), Rest, BeginMu(0));
    FirstMoves(n, BeginMu(0), Rest, BeginPath(0));
    FirstLocks(n);
    FirstMoves(n, Loading(0), Rest, InTx(0));
  }

  lemma FirstLocks(n: Names)
    ensures Step(n, Pair(BeginPath(0), Rest), Pair(BeginFile(0), Rest))
    ensures Step(n, Pair(BeginFile(0), Rest), Pair(Loading(0), Rest))
  {
    hide Step;
    FirstMoves(n, BeginPath(0), Rest, BeginFile(0));
    FirstMoves(n, BeginFile(0), Rest, Loading(0));
  }

  lemma SecondBegins(n: Names)
    ensures Step(n, Pair(InTx(0), Rest), Pair(InTx(0), BeginTx(1)))
    ensures Step(n, Pair(InTx(0), BeginTx(1)), Pair(InTx(0), BeginMu(1)))
    ensures Step(n, Pair(InTx(0), BeginMu(1)), Pair(InTx(0), BeginPath(1)))
  {
    hide Step;
    SecondMoves(n, InTx(0), Rest, BeginTx(1));
    SecondMoves(n, InTx(0), BeginTx(1), BeginMu(1));
    SecondMoves(n, InTx(0), BeginMu(1), BeginPath(1));
  }

  lemma FirstReads(n: Names)
    ensures Step(n, Pair(InTx(0), BeginPath(1)), Pair(TxRead(0, 1), BeginPath(1)))
  {
    hide Step;
    FirstMoves(n, InTx(0), BeginPath(1), TxRead(0, 1));
  }

  function Pair(x: Place, y: Place): State
  {
    State([x, y], {})
  }

  lemma PairStuck(n: Names)
    requires n.path(0) == n.path(1)
    ensures Stuck(n, Pair(TxRead(0, 1), BeginPath(1)))
  {
    var s := Pair(TxRead(0, 1), BeginPath(1));
    assert Writes(s.at[1], 1) && OnPath(n, s.at[0], n.path(1));
    assert !MuReadable(s, 0, 1) && !PathFree(n, s, 1, 1);
  }

  lemma FirstMoves(n: Names, x: Place, y: Place, x2: Place)
    requires Move(n, Pair(x, y), 0, x2) && !x.Closing?
    ensures Step(n, Pair(x, y), Pair(x2, y))
  {
    hide Move;
    assert Pair(x2, y).at == Pair(x, y).at[0 := x2];
  }

  lemma SecondMoves(n: Names, x: Place, y: Place, y2: Place)
    requires Move(n, Pair(x, y), 1, y2) && !y.Closing?
    ensures Step(n, Pair(x, y), Pair(x, y2))
  {
    hide Move;
    assert Pair(x, y2).at == Pair(x, y).at[1 := y2];
  }

  /** No thread can move, and every thread has begun something. */
  ghost predicate Stuck(n: Names, s: State)
  {
    && (forall t :: 0 <= t < |s.at| ==> !s.at[t].Rest?)
    && forall t, y :: 0 <= t < |s.at| ==> !Move(n, s, t, y)
  }

  // ---------- the table of path locks ----------

  /** The process-wide table from paths to their locks; locks are never taken out again. */
  class LockTable<Key(==)> {
    var locks: map<Key, nat>

    constructor ()
      ensures Valid() && locks == map[]
    {
      locks := map[];
    }

    /** Different paths have different locks. */
    ghost predicate Valid()
      reads this
    {
      && (forall k :: k in locks ==> locks[k] < |locks|)
      && forall k, j :: k in locks && j in locks && k != j ==> locks[k] != locks[j]
    }

    /** The lock of a path: the one it has had ever since the path was first asked for. */
    method LockFor(key: Key) returns (id: nat)
      requires Valid()
      modifies this
      ensures Valid() && key in locks && id == locks[key]
      ensures locks.Keys == old(locks).Keys + {key} && forall k :: k in old(locks) ==> locks[k] == old(locks)[k]
    {
      if key !in locks { locks := locks[key := |locks|]; }
      id := locks[key];
    }
  }
}
