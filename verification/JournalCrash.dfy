/** Crash atomicity of one journal transaction: log every block, commit, checkpoint. A
    crash may fall between any two sector writes, recovery may itself be cut short at any
    of its writes any number of times, and the last recovery always leaves the home blocks
    either all old or all new. */
module JournalCrash {
  import opened Device
  import opened Journal
  import opened JournalOps

  datatype Update = Update(block: word, data: Sector)

  const MAX_TXN := 126

  function Entries(u: seq<Update>, s: word): (es: seq<Entry>)
    ensures |es| == |u| && forall i :: 0 <= i < |u| ==> es[i] == Data(s, u[i].block, u[i].data)
  {
    seq(|u|, i requires 0 <= i < |u| => Data(s, u[i].block, u[i].data))
  }

  lemma EntriesSnoc(u: seq<Update>, s: word)
    requires u != []
    ensures Entries(u, s) == Entries(u[..|u| - 1], s) + [Data(s, u[|u| - 1].block, u[|u| - 1].data)]
  {
  }

  lemma {:induction false} EntriesTotal(u: seq<Update>, s: word)
    ensures Total(Entries(u, s)) == 2 * |u|
  {
    if u != [] {
      EntriesTotal(u[..|u| - 1], s);
      EntriesSnoc(u, s);
      TotalAppend(Entries(u[..|u| - 1], s), Data(s, u[|u| - 1].block, u[|u| - 1].data));
    }
  }

  predicate UpdatesOk(u: seq<Update>, start: nat, size: nat) {
    forall i :: 0 <= i < |u| ==> u[i].block < size && !InJournal(start, u[i].block)
  }

  // ----- The writes of a whole transaction -----

  function LogAll(d: seq<Sector>, start: nat, s: word, u: seq<Update>): (ws: seq<Write>)
    requires Ring(d, start, []) && |u| <= MAX_TXN
    ensures |ws| == 3 * |u| && InRange(ws, |d|)
    ensures Ring(Apply(d, ws), start, Entries(u, s)) && SameTargets(Apply(d, ws), d, start)
  {
    if u == [] then []
    else
      var init, last := u[..|u| - 1], u[|u| - 1];
      var ws := LogAll(d, start, s, init);
      var c := Apply(d, ws);
      var lw := LogWrites(c, start, s, last.block, last.data);
      EntriesTotal(init, s);
      LogCrash(c, start, Entries(init, s), s, last.block, last.data, 3);
      assert lw[..3] == lw;
      EntriesSnoc(u, s);
      ApplyConcat(d, ws, lw);
      ws + lw
  }

  lemma LogAllSnoc(d: seq<Sector>, start: nat, s: word, u: seq<Update>)
    requires Ring(d, start, []) && 0 < |u| <= MAX_TXN
    ensures var wi := LogAll(d, start, s, u[..|u| - 1]);
      LogAll(d, start, s, u) == wi + LogWrites(Apply(d, wi), start, s, u[|u| - 1].block, u[|u| - 1].data)
  {
  }

  /** Crash points inside the log of the last update. */
  lemma {:induction false} LogLastCrash(c: seq<Sector>, d: seq<Sector>, start: nat, s: word, u: seq<Update>, m: nat)
    requires 0 < |u| <= MAX_TXN && m <= 3
    requires Pending(c, d, start, Entries(u[..|u| - 1], s))
    ensures var lw := LogWrites(c, start, s, u[|u| - 1].block, u[|u| - 1].data);
      InRange(lw, |c|) && Pending(Apply(c, lw[..m]), d, start, Entries(u[..if m < 3 then |u| - 1 else |u|], s))
  {
    var init, last := u[..|u| - 1], u[|u| - 1];
    EntriesTotal(init, s);
    LogCrash(c, start, Entries(init, s), s, last.block, last.data, m);
    EntriesSnoc(u, s);
    assert u[..|u|] == u;
  }

  lemma SamePrefix(u: seq<Update>, n: nat, i: nat)
    requires i <= n <= |u|
    ensures u[..n][..i] == u[..i]
  {
  }

  lemma Thirds(k: nat, n: nat)
    requires 3 * n < k <= 3 * n + 3
    ensures k / 3 == if k - 3 * n < 3 then n else n + 1
  {
  }

  /** A crash while logging leaves in the ring exactly the updates whose three writes are
      all on the device, and the home blocks untouched. */
  lemma {:induction false} LogAllCrash(d: seq<Sector>, start: nat, s: word, u: seq<Update>, k: nat)
    requires Ring(d, start, []) && |u| <= MAX_TXN && k <= 3 * |u|
    ensures Pending(Apply(d, LogAll(d, start, s, u)[..k]), d, start, Entries(u[..k / 3], s))
  {
    var ws := LogAll(d, start, s, u);
    if u == [] {
      assert ws[..k] == [] && Entries(u[..0], s) == [];
    } else {
      var n := |u| - 1;
      var wi := LogAll(d, start, s, u[..n]);
      LogAllCut(d, start, s, u, k, n, wi);
      if k <= |wi| {
        LogAllCrash(d, start, s, u[..n], k);
        SamePrefix(u, n, k / 3);
      } else {
        LogLastCrash(Apply(d, wi), d, start, s, u, k - |wi|);
        Thirds(k, n);
      }
    }
  }

  /** A crash while logging falls in the log of the last update or before it. */
  lemma {:induction false} LogAllCut(d: seq<Sector>, start: nat, s: word, u: seq<Update>, k: nat, n: nat,
                                     wi: seq<Write>)
    requires Ring(d, start, []) && |u| <= MAX_TXN && n + 1 == |u| && k <= 3 * |u| && wi == LogAll(d, start, s, u[..n])
    ensures var c := Apply(d, wi);
      && InRange(LogWrites(c, start, s, u[n].block, u[n].data), |d|) && |wi| == 3 * n
      && Apply(d, LogAll(d, start, s, u)[..k]) == if k <= |wi| then Apply(d, wi[..k])
         else Apply(c, LogWrites(c, start, s, u[n].block, u[n].data)[..k - |wi|])
  {
    LogAllSnoc(d, start, s, u);
    var lw := LogWrites(Apply(d, wi), start, s, u[n].block, u[n].data);
    assert InRange(wi + lw, |d|) && lw == (wi + lw)[|wi|..];
    ApplyCut(d, wi, lw, k);
  }

  function AfterLog(d: seq<Sector>, start: nat, s: word, u: seq<Update>): seq<Sector>
    requires Ring(d, start, []) && |u| <= MAX_TXN
  {
    Apply(d, LogAll(d, start, s, u))
  }

  function AfterCommit(d: seq<Sector>, start: nat, s: word, u: seq<Update>): (c: seq<Sector>)
    requires Ring(d, start, []) && |u| <= MAX_TXN
    ensures InRange(CommitWrites(AfterLog(d, start, s, u), start, s), |d|)
    ensures c == Apply(AfterLog(d, start, s, u), CommitWrites(AfterLog(d, start, s, u), start, s))
    ensures Ring(c, start, Entries(u, s) + [Entry.Commit(s)]) && SameTargets(c, d, start)
  {
    var l := AfterLog(d, start, s, u);
    EntriesTotal(u, s);
    CommitCrash(l, start, Entries(u, s), s, 2);
    assert CommitWrites(l, start, s)[..2] == CommitWrites(l, start, s);
    Apply(l, CommitWrites(l, start, s))
  }

  /** Every sector write of the transaction, from the first log to the end of the checkpoint. */
  function TxnWrites(d: seq<Sector>, start: nat, s: word, u: seq<Update>): seq<Write>
    requires Ring(d, start, []) && |u| <= MAX_TXN
  {
    LogAll(d, start, s, u)
    + CommitWrites(AfterLog(d, start, s, u), start, s)
    + CheckpointWrites(AfterCommit(d, start, s, u), start, Entries(u, s) + [Entry.Commit(s)])
  }

  /** The number of writes after which the transaction is durable: the superblock write of the commit. */
  function CommitPoint(d: seq<Sector>, start: nat, s: word, u: seq<Update>): nat
    requires Ring(d, start, []) && |u| <= MAX_TXN
  {
    |LogAll(d, start, s, u)| + 2
  }

  // ----- The three kinds of crash state -----

  /** Not committed: the ring holds some of the updates, the home blocks none of them. */
  ghost predicate Pending(c: seq<Sector>, d: seq<Sector>, start: nat, es: seq<Entry>) {
    SameTargets(c, d, start) && Ring(c, start, es)
  }

  ghost function Home(d: seq<Sector>, start: nat, u: seq<Update>): (r: seq<Sector>)
    requires UpdatesOk(u, start, |d|)
    ensures |r| == |d|
  {
    HomeWritesInRange(u, start, |d|);
    Apply(d, HomeWrites(u))
  }

  function HomeWrites(u: seq<Update>): (ws: seq<Write>)
    ensures |ws| == |u| && forall i :: 0 <= i < |u| ==> ws[i] == Put(u[i].block, u[i].data)
  {
    seq(|u|, i requires 0 <= i < |u| => Put(u[i].block, u[i].data))
  }

  lemma HomeWritesInRange(u: seq<Update>, start: nat, size: nat)
    requires UpdatesOk(u, start, size)
    ensures InRange(HomeWrites(u), size) && Outside(HomeWrites(u), start, size)
  {
  }

  /** Committed: the ring still holds the transaction and redoing it gives the new contents. */
  ghost predicate Committed(c: seq<Sector>, d: seq<Sector>, start: nat, s: word, u: seq<Update>)
    requires UpdatesOk(u, start, |d|)
  {
    && |c| == |d|
    && Ring(c, start, Entries(u, s) + [Entry.Commit(s)])
    && SameTargets(Home(c, start, u), Home(d, start, u), start)
  }

  lemma {:induction false} EntriesWrites(u: seq<Update>, s: word)
    ensures DataWrites(Entries(u, s)) == HomeWrites(u)
    ensures MatchingWrites(Entries(u, s), s) == HomeWrites(u)
    ensures ReplayWrites(Entries(u, s)) == [] && CommitEnd(Entries(u, s)) == 0
  {
    if u != [] {
      EntriesWrites(u[..|u| - 1], s);
      var es := Entries(u, s);
      assert es[..|es| - 1] == Entries(u[..|u| - 1], s);
      assert HomeWrites(u) == HomeWrites(u[..|u| - 1]) + [Put(u[|u| - 1].block, u[|u| - 1].data)];
    }
  }

  /** What the committed ring replays, for recovery and for checkpoint alike. */
  lemma CommittedWrites(u: seq<Update>, s: word)
    ensures var es := Entries(u, s) + [Entry.Commit(s)];
      ReplayWrites(es) == HomeWrites(u) && DataWrites(es) == HomeWrites(u) && CommitEnd(es) == |es|
  {
    EntriesWrites(u, s);
    assert (Entries(u, s) + [Entry.Commit(s)])[..|u|] == Entries(u, s);
    assert HomeWrites(u) == [] + HomeWrites(u);
  }

  lemma CommittedChecks(u: seq<Update>, s: word, start: nat, size: nat)
    requires UpdatesOk(u, start, size)
    ensures var es := Entries(u, s) + [Entry.Commit(s)];
      TargetsOk(es, start, size) && NoAlias(es)
  {
  }

  /** Overwriting some of the home blocks with the transaction's own data changes nothing a
      full redo would not change. */
  lemma PartialHome(c: seq<Sector>, d: seq<Sector>, start: nat, u: seq<Update>, k: nat)
    requires UpdatesOk(u, start, |d|) && |c| == |d| && k <= |u|
    requires SameTargets(Home(c, start, u), Home(d, start, u), start)
    ensures InRange(HomeWrites(u)[..k], |d|)
    ensures SameTargets(Home(Apply(c, HomeWrites(u)[..k]), start, u), Home(d, start, u), start)
  {
    HomeWritesInRange(u, start, |d|);
    RedoAfterPrefix(c, HomeWrites(u), k);
  }

  lemma SameTargetsHome(c: seq<Sector>, d: seq<Sector>, start: nat, u: seq<Update>)
    requires UpdatesOk(u, start, |d|) && SameTargets(c, d, start)
    ensures SameTargets(Home(c, start, u), Home(d, start, u), start)
  {
    HomeWritesInRange(u, start, |d|);
    forall x: nat | x < |d| && !InJournal(start, x)
      ensures Home(c, start, u)[x] == Home(d, start, u)[x]
    {
      ApplyAgree(c, d, HomeWrites(u), x);
    }
  }

  // ----- Recovery, cut short any number of times -----

  /** The device determines the live entries: a ring reads back in one way only. */
  lemma {:induction false} RingPrefixUnique(c: seq<Sector>, start: nat, es: seq<Entry>, fs: seq<Entry>, j: nat)
    requires Ring(c, start, es) && Ring(c, start, fs) && j <= |es|
    ensures j <= |fs| && es[..j] == fs[..j]
  {
    if j > 0 {
      RingPrefixUnique(c, start, es, fs, j - 1);
      EntryStep(c, start, es, j - 1);
      assert EntrySlot(c, start, fs, j - 1) == EntrySlot(c, start, es, j - 1);
      EntrySlotEnds(c, start, fs, |fs|);
      assert es[..j] == es[..j - 1] + [es[j - 1]];
      assert fs[..j] == fs[..j - 1] + [fs[j - 1]];
    }
  }

  lemma RingUnique(c: seq<Sector>, start: nat, es: seq<Entry>, fs: seq<Entry>)
    requires Ring(c, start, es) && Ring(c, start, fs)
    ensures es == fs
  {
    RingPrefixUnique(c, start, es, fs, |es|);
    RingPrefixUnique(c, start, fs, es, |fs|);
    assert es[..|es|] == es && fs[..|fs|] == fs;
  }

  ghost predicate HasRing(c: seq<Sector>, start: nat) {
    exists es :: Ring(c, start, es)
  }

  ghost function Live(c: seq<Sector>, start: nat): (es: seq<Entry>)
    requires HasRing(c, start)
    ensures Ring(c, start, es)
  {
    var es :| Ring(c, start, es);
    es
  }

  /** The device after recovery has done its first k writes, or all of them. */
  ghost function CutRecovery(c: seq<Sector>, start: nat, k: nat): seq<Sector> {
    if HasRing(c, start) && TargetsOk(Live(c, start), start, |c|) then
      var ws := RecoverWrites(c, start, Live(c, start));
      RecoverCrash(c, start, Live(c, start), |ws|);
      Apply(c, if k < |ws| then ws[..k] else ws)
    else c
  }

  ghost function FullRecovery(c: seq<Sector>, start: nat): seq<Sector> {
    if HasRing(c, start) then CutRecovery(c, start, |RecoverWrites(c, start, Live(c, start))|) else c
  }

  /** One crash during recovery after another, at the given write counts. */
  ghost function Survive(c: seq<Sector>, start: nat, cuts: seq<nat>): seq<Sector>
    decreases |cuts|
  {
    if cuts == [] then c else Survive(CutRecovery(c, start, cuts[0]), start, cuts[1..])
  }

  lemma {:induction false} CutIs(c: seq<Sector>, start: nat, es: seq<Entry>, k: nat)
    requires Ring(c, start, es) && TargetsOk(es, start, |c|)
    ensures HasRing(c, start) && Live(c, start) == es
    ensures InRange(RecoverWrites(c, start, es), |c|)
    ensures var ws := RecoverWrites(c, start, es);
      CutRecovery(c, start, k) == Apply(c, ws[..if k < |ws| then k else |ws|])
  {
    RingUnique(c, start, es, Live(c, start));
    var ws := RecoverWrites(c, start, es);
    RecoverCrash(c, start, es, |ws|);
    assert ws[..|ws|] == ws;
  }

  lemma EntriesChecks(v: seq<Update>, s: word, start: nat, size: nat)
    requires UpdatesOk(v, start, size)
    ensures TargetsOk(Entries(v, s), start, size) && ReplayWrites(Entries(v, s)) == []
  {
    EntriesWrites(v, s);
  }

  /** An uncommitted ring: recovery only empties it. */
  lemma PendingCut(c: seq<Sector>, d: seq<Sector>, start: nat, s: word, v: seq<Update>, k: nat)
    requires UpdatesOk(v, start, |d|) && Pending(c, d, start, Entries(v, s))
    ensures Pending(CutRecovery(c, start, k), d, start, Entries(if k < 1 then v else [], s))
  {
    var es := Entries(v, s);
    EntriesChecks(v, s, start, |d|);
    var ws := RecoverWrites(c, start, es);
    assert ReplayWrites(es)[..0] == [] && |ws| == 1;
    CutIs(c, start, es, k);
    RecoverCrash(c, start, es, if k < 1 then 0 else 1);
    assert Entries([], s) == [];
    assert ws[..0] == [];
  }

  lemma {:induction false} PendingOutcome(c: seq<Sector>, d: seq<Sector>, start: nat, s: word, v: seq<Update>,
                                          cuts: seq<nat>)
    requires UpdatesOk(v, start, |d|) && Pending(c, d, start, Entries(v, s))
    ensures var f := FullRecovery(Survive(c, start, cuts), start);
      Ring(f, start, []) && SameTargets(f, d, start)
    decreases |cuts|
  {
    if cuts == [] {
      EntriesChecks(v, s, start, |d|);
      CutIs(c, start, Entries(v, s), 1);
      PendingCut(c, d, start, s, v, 1);
      assert Entries([], s) == [];
    } else {
      PendingCut(c, d, start, s, v, cuts[0]);
      PendingOutcome(CutRecovery(c, start, cuts[0]), d, start, s, if cuts[0] < 1 then v else [], cuts[1..]);
    }
  }

  /** A committed ring: every cut of recovery keeps it committed, and the last write finishes it. */
  lemma CommittedCut(c: seq<Sector>, d: seq<Sector>, start: nat, s: word, u: seq<Update>, k: nat)
    requires UpdatesOk(u, start, |d|) && Committed(c, d, start, s, u)
    ensures k <= |u| ==> Committed(CutRecovery(c, start, k), d, start, s, u)
    ensures k > |u| ==> Pending(CutRecovery(c, start, k), Home(d, start, u), start, [])
    ensures HasRing(c, start) && |RecoverWrites(c, start, Live(c, start))| == |u| + 1
  {
    var es := Entries(u, s) + [Entry.Commit(s)];
    CommittedWrites(u, s);
    CommittedChecks(u, s, start, |d|);
    CutIs(c, start, es, k);
    var ws := RecoverWrites(c, start, es);
    RecoverCrash(c, start, es, if k <= |u| then k else |ws|);
    if k <= |u| {
      assert CutRecovery(c, start, k) == Apply(c, HomeWrites(u)[..k]);
      PartialHome(c, d, start, u, k);
    } else {
      assert Apply(c, ReplayWrites(es)) == Home(c, start, u);
    }
  }

  lemma {:induction false} CommittedOutcome(c: seq<Sector>, d: seq<Sector>, start: nat, s: word, u: seq<Update>,
                                            cuts: seq<nat>)
    requires UpdatesOk(u, start, |d|) && Committed(c, d, start, s, u)
    ensures var f := FullRecovery(Survive(c, start, cuts), start);
      Ring(f, start, []) && SameTargets(f, Home(d, start, u), start)
    decreases |cuts|
  {
    if cuts == [] {
      CommittedCut(c, d, start, s, u, |u| + 1);
    } else {
      var k := cuts[0];
      CommittedCut(c, d, start, s, u, k);
      if k <= |u| {
        CommittedOutcome(CutRecovery(c, start, k), d, start, s, u, cuts[1..]);
      } else {
        assert Entries([], s) == [];
        PendingOutcome(CutRecovery(c, start, k), Home(d, start, u), start, s, [], cuts[1..]);
      }
    }
  }

  // ----- The theorem -----

  /** Where a crash inside the commit and the checkpoint leaves the transaction. */
  lemma CommitPhase(d: seq<Sector>, start: nat, s: word, u: seq<Update>, k: nat)
    requires Ring(d, start, []) && |u| <= MAX_TXN && UpdatesOk(u, start, |d|) && k <= 2
    ensures var l := AfterLog(d, start, s, u);
      var c := Apply(l, CommitWrites(l, start, s)[..k]);
      if k < 2 then Pending(c, d, start, Entries(u, s)) else Committed(c, d, start, s, u)
  {
    var l := AfterLog(d, start, s, u);
    EntriesTotal(u, s);
    CommitCrash(l, start, Entries(u, s), s, k);
    if k == 2 {
      var c := AfterCommit(d, start, s, u);
      assert CommitWrites(l, start, s)[..2] == CommitWrites(l, start, s);
      SameTargetsHome(c, d, start, u);
    }
  }

  lemma CheckpointPhase(d: seq<Sector>, start: nat, s: word, u: seq<Update>, k: nat)
    requires Ring(d, start, []) && |u| <= MAX_TXN && UpdatesOk(u, start, |d|)
    requires k <= |u| + 1
    ensures var es := Entries(u, s) + [Entry.Commit(s)];
      var a := AfterCommit(d, start, s, u);
      var ws := CheckpointWrites(a, start, es);
      && |ws| == |u| + 1 && InRange(ws, |d|)
      && var c := Apply(a, ws[..k]);
      if k <= |u| then Committed(c, d, start, s, u) else Pending(c, Home(d, start, u), start, [])
  {
    var es := Entries(u, s) + [Entry.Commit(s)];
    var a := AfterCommit(d, start, s, u);
    SameTargetsHome(a, d, start, u);
    CommittedWrites(u, s);
    CommittedChecks(u, s, start, |d|);
    assert es[..|es|] == es && es[|es|..] == [];
    CheckpointCrash(a, start, es, k);
    if k <= |u| {
      PartialHome(a, d, start, u, k);
    } else {
      assert Apply(a, DataWrites(es)) == Home(a, start, u);
    }
  }

  /** What a crash state c after k writes holds: a ring without a commit, a committed ring, or
      the finished transaction. */
  ghost predicate CrashShape(c: seq<Sector>, d: seq<Sector>, start: nat, s: word, u: seq<Update>, k: nat, n: nat)
    requires UpdatesOk(u, start, |d|)
  {
    && (k < n ==> exists v :: UpdatesOk(v, start, |d|) && Pending(c, d, start, Entries(v, s)))
    && (n <= k <= n + |u| ==> Committed(c, d, start, s, u))
    && (k > n + |u| ==> Pending(c, Home(d, start, u), start, []))
  }

  lemma ShapeInLog(d: seq<Sector>, start: nat, s: word, u: seq<Update>, k: nat)
    requires Ring(d, start, []) && |u| <= MAX_TXN && UpdatesOk(u, start, |d|) && k <= |LogAll(d, start, s, u)|
    ensures CrashShape(Apply(d, LogAll(d, start, s, u)[..k]), d, start, s, u, k, CommitPoint(d, start, s, u))
  {
    LogAllCrash(d, start, s, u, k);
    assert UpdatesOk(u[..k / 3], start, |d|);
  }

  lemma ShapeInCommit(d: seq<Sector>, start: nat, s: word, u: seq<Update>, j: nat)
    requires Ring(d, start, []) && |u| <= MAX_TXN && UpdatesOk(u, start, |d|) && 0 < j <= 2
    ensures var l := AfterLog(d, start, s, u);
      && |CommitWrites(l, start, s)| == 2 && InRange(CommitWrites(l, start, s), |l|)
      && CrashShape(Apply(l, CommitWrites(l, start, s)[..j]), d, start, s, u, |LogAll(d, start, s, u)| + j,
          CommitPoint(d, start, s, u))
  {
    CommitPhase(d, start, s, u, j);
  }

  lemma ShapeInCheckpoint(d: seq<Sector>, start: nat, s: word, u: seq<Update>, j: nat)
    requires Ring(d, start, []) && |u| <= MAX_TXN && UpdatesOk(u, start, |d|) && 0 < j <= |u| + 1
    ensures var a := AfterCommit(d, start, s, u);
      var kw := CheckpointWrites(a, start, Entries(u, s) + [Entry.Commit(s)]);
      && |kw| == |u| + 1 && InRange(kw, |d|)
      && CrashShape(Apply(a, kw[..j]), d, start, s, u, CommitPoint(d, start, s, u) + j, CommitPoint(d, start, s, u))
  {
    CheckpointPhase(d, start, s, u, j);
  }

  /** Which ring a crash after k writes of the transaction leaves behind. */
  lemma CrashAfter(d: seq<Sector>, start: nat, s: word, u: seq<Update>, k: nat)
    requires Ring(d, start, []) && |u| <= MAX_TXN && UpdatesOk(u, start, |d|)
    requires k <= |TxnWrites(d, start, s, u)|
    ensures InRange(TxnWrites(d, start, s, u), |d|)
    ensures CrashShape(Apply(d, TxnWrites(d, start, s, u)[..k]), d, start, s, u, k, CommitPoint(d, start, s, u))
  {
    var lw := LogAll(d, start, s, u);
    var l, a := AfterLog(d, start, s, u), AfterCommit(d, start, s, u);
    var cw, kw := CommitWrites(l, start, s), CheckpointWrites(a, start, Entries(u, s) + [Entry.Commit(s)]);
    CheckpointPhase(d, start, s, u, 0);
    ApplyCutThree(d, lw, cw, kw, k);
    if k <= |lw| {
      ShapeInLog(d, start, s, u, k);
    } else if k <= |lw| + 2 {
      ShapeInCommit(d, start, s, u, k - |lw|);
    } else {
      ShapeInCheckpoint(d, start, s, u, k - |lw| - 2);
    }
  }

  /** The writes that reached the device when it crashed after k of them. */
  function FirstWrites(ws: seq<Write>, k: nat): (r: seq<Write>)
    ensures r <= ws
  {
    if k <= |ws| then ws[..k] else ws
  }

  /** Crash atomicity. Take any device whose ring is empty and any transaction of at most
      126 blocks outside the journal. Crash after any number k of its sector writes; then
      let recovery itself crash at any points `cuts`. The recovery that runs to its end
      leaves an empty ring, and the home blocks exactly as before if the commit's
      superblock write had not happened, exactly updated in log order if it had. */
  lemma CrashAtomicity(d: seq<Sector>, start: nat, s: word, u: seq<Update>, k: nat, cuts: seq<nat>)
    requires Ring(d, start, []) && |u| <= MAX_TXN && UpdatesOk(u, start, |d|)
    ensures InRange(TxnWrites(d, start, s, u), |d|)
    ensures var crashed := Apply(d, FirstWrites(TxnWrites(d, start, s, u), k));
      var f := FullRecovery(Survive(crashed, start, cuts), start);
      && Ring(f, start, [])
      && SameTargets(f, if k < CommitPoint(d, start, s, u) then d else Home(d, start, u), start)
  {
    var ws, n := TxnWrites(d, start, s, u), CommitPoint(d, start, s, u);
    var j := if k <= |ws| then k else |ws|;
    CrashAfter(d, start, s, u, j);
    var crashed := Apply(d, ws[..j]);
    assert FirstWrites(ws, k) == ws[..j] && n <= |ws|;
    if j < n {
      var v :| UpdatesOk(v, start, |d|) && Pending(crashed, d, start, Entries(v, s));
      PendingOutcome(crashed, d, start, s, v, cuts);
    } else if j <= n + |u| {
      CommittedOutcome(crashed, d, start, s, u, cuts);
    } else {
      assert Entries([], s) == [];
      PendingOutcome(crashed, Home(d, start, u), start, s, [], cuts);
    }
  }

  /** One more update logged: its writes follow those of the earlier ones. */
  lemma LogNext(d: seq<Sector>, start: nat, s: word, u: seq<Update>, n: nat, t: seq<Write>)
    requires Ring(d, start, []) && n < |u| <= MAX_TXN
    ensures var wi := LogAll(d, start, s, u[..n]);
      var lw := LogWrites(AfterLog(d, start, s, u[..n]), start, s, u[n].block, u[n].data);
      && InRange(lw, |d|)
      && AfterLog(d, start, s, u[..n + 1]) == Apply(AfterLog(d, start, s, u[..n]), lw)
      && t + wi + lw == t + LogAll(d, start, s, u[..n + 1])
  {
    var wi := LogAll(d, start, s, u[..n]);
    var lw := LogWrites(AfterLog(d, start, s, u[..n]), start, s, u[n].block, u[n].data);
    assert u[..n + 1][..n] == u[..n];
    LogAllSnoc(d, start, s, u[..n + 1]);
    assert InRange(LogAll(d, start, s, u[..n + 1]), |d|);
    assert lw == LogAll(d, start, s, u[..n + 1])[|wi|..];
    ApplyConcat(d, wi, lw);
    ConcatAssoc(t, wi, lw);
  }

  method LogUpdates(dev: BlockDev, start: nat, s: word, u: seq<Update>)
    requires Ring(dev.sectors, start, []) && |u| <= MAX_TXN
    modifies dev
    ensures dev.sectors == AfterLog(old(dev.sectors), start, s, u)
    ensures dev.trace == old(dev.trace) + LogAll(old(dev.sectors), start, s, u)
  {
    ghost var d, t := dev.sectors, dev.trace;
    assert u[..0] == [] && t + [] == t;
    for n := 0 to |u|
      invariant dev.sectors == AfterLog(d, start, s, u[..n])
      invariant dev.trace == t + LogAll(d, start, s, u[..n])
    {
      EntriesTotal(u[..n], s);
      LogNext(d, start, s, u, n, t);
      var e := Log(dev, start, s, u[n].block, u[n].data, Entries(u[..n], s));
    }
    assert u[..|u|] == u;
  }

  /** The operations really issue the writes the theorem quantifies over: running a
      transaction through journal_log, journal_commit and journal_checkpoint traces exactly
      TxnWrites. */
  method RunTransaction(dev: BlockDev, start: nat, s: word, u: seq<Update>)
    requires Ring(dev.sectors, start, []) && |u| <= MAX_TXN && UpdatesOk(u, start, |dev.sectors|)
    modifies dev
    ensures InRange(TxnWrites(old(dev.sectors), start, s, u), |old(dev.sectors)|)
    ensures dev.trace == old(dev.trace) + TxnWrites(old(dev.sectors), start, s, u)
    ensures dev.sectors == Apply(old(dev.sectors), TxnWrites(old(dev.sectors), start, s, u))
  {
    ghost var d, t := dev.sectors, dev.trace;
    ghost var lw := LogAll(d, start, s, u);
    LogUpdates(dev, start, s, u);
    ghost var cw := CommitWrites(dev.sectors, start, s);
    EntriesTotal(u, s);
    var e := JournalOps.Commit(dev, start, s, Entries(u, s));
    assert dev.sectors == AfterCommit(d, start, s, u);
    ApplyConcat(d, lw, cw);
    ConcatAssoc(t, lw, cw);
    ghost var kw := CheckpointWrites(dev.sectors, start, Entries(u, s) + [Entry.Commit(s)]);
    CommittedChecks(u, s, start, |d|);
    Checkpoint(dev, start, Entries(u, s) + [Entry.Commit(s)]);
    ApplyConcat(d, lw + cw, kw);
    ConcatAssoc(t, lw + cw, kw);
  }

  /** So does recovery: run on any sound ring it leaves the device the theorem speaks of. */
  method RunRecovery(dev: BlockDev, start: nat, ghost es: seq<Entry>) returns (wasDirty: bool)
    requires Ring(dev.sectors, start, es) && TargetsOk(es, start, |dev.sectors|) && NoAlias(es)
    modifies dev
    ensures dev.sectors == FullRecovery(old(dev.sectors), start) && wasDirty == (ReplayWrites(es) != [])
  {
    ghost var c := dev.sectors;
    ghost var ws := RecoverWrites(c, start, es);
    CutIs(c, start, es, |ws|);
    assert ws[..|ws|] == ws;
    wasDirty := Recover(dev, start, es);
  }
}
