/** A whole filesystem operation between sfs_begin_op and sfs_end_op, logging any number of
    blocks, and what a crash in it leaves behind. A full ring makes sfs_write_meta commit in the
    middle, so an operation becomes durable in batches of 126 blocks. */
module MetaOps {
  import opened Device
  import opened Journal
  import opened JournalOps
  import opened JournalCrash
  import opened JournalSpace

  /** The device without its journal area. */
  ghost function Blocks(d: seq<Sector>, start: nat): (r: seq<Sector>)
    ensures |r| == |d| && forall x :: 0 <= x < |d| ==> r[x] == if InJournal(start, x) then ZeroSector() else d[x]
  {
    seq(|d|, x requires 0 <= x < |d| => if InJournal(start, x) then ZeroSector() else d[x])
  }

  lemma BlocksIff(d: seq<Sector>, e: seq<Sector>, start: nat)
    ensures SameTargets(d, e, start) <==> Blocks(d, start) == Blocks(e, start)
  {
    if Blocks(d, start) == Blocks(e, start) {
      assert |d| == |Blocks(d, start)| == |e|;
      forall x: nat | x < |d| && !InJournal(start, x) ensures d[x] == e[x] {
        assert Blocks(d, start)[x] == d[x] && Blocks(e, start)[x] == e[x];
      }
    }
  }

  // ----- The writes of an operation -----

  lemma PartsOk(u: seq<Update>, start: nat, size: nat)
    requires UpdatesOk(u, start, size) && |u| > MAX_TXN
    ensures UpdatesOk(u[..MAX_TXN], start, size) && UpdatesOk(u[MAX_TXN..], start, size)
  {
  }

  lemma BatchesOk(u: seq<Update>, start: nat, size: nat, j: nat)
    requires UpdatesOk(u, start, size)
    ensures UpdatesOk(FirstBatches(u, j), start, size)
  {
  }

  /** One batch, from its first log to the end of its checkpoint, empties the ring again. */
  lemma BatchDone(d: seq<Sector>, start: nat, s: word, u: seq<Update>)
    requires Ring(d, start, []) && |u| <= MAX_TXN && UpdatesOk(u, start, |d|)
    ensures var ws := TxnWrites(d, start, s, u);
      && InRange(ws, |d|) && Ring(Apply(d, ws), start, []) &&
          Blocks(Apply(d, ws), start) == Blocks(Home(d, start, u), start)
      && CommitPoint(d, start, s, u) + |u| < |ws|
  {
    var ws := TxnWrites(d, start, s, u);
    CheckpointPhase(d, start, s, u, 0);
    CrashAfter(d, start, s, u, |ws|);
    assert ws[..|ws|] == ws;
    BlocksIff(Apply(d, ws), Home(d, start, u), start);
  }

  /** All sector writes of an operation that logs the blocks u. */
  function OpWrites(d: seq<Sector>, start: nat, u: seq<Update>): seq<Write>
    requires Ring(d, start, []) && UpdatesOk(u, start, |d|)
    decreases |u|
  {
    if |u| <= MAX_TXN then TxnWrites(d, start, d[start][SEQ], u)
    else
      var batch, rest := u[..MAX_TXN], u[MAX_TXN..];
      var ws := TxnWrites(d, start, d[start][SEQ], batch);
      BatchDone(d, start, d[start][SEQ], batch);
      ws + OpWrites(Apply(d, ws), start, rest)
  }

  lemma {:induction false} OpWritesInRange(d: seq<Sector>, start: nat, u: seq<Update>)
    requires Ring(d, start, []) && UpdatesOk(u, start, |d|)
    ensures InRange(OpWrites(d, start, u), |d|)
    decreases |u|
  {
    if |u| <= MAX_TXN {
      BatchDone(d, start, d[start][SEQ], u);
    } else {
      BatchDone(d, start, d[start][SEQ], u[..MAX_TXN]);
      OpWritesInRange(Apply(d, TxnWrites(d, start, d[start][SEQ], u[..MAX_TXN])), start, u[MAX_TXN..]);
    }
  }

  // ----- What a crash leaves -----

  /** How many batches are durable when the device crashes after k writes. */
  function Batches(d: seq<Sector>, start: nat, u: seq<Update>, k: nat): nat
    requires Ring(d, start, []) && UpdatesOk(u, start, |d|)
    decreases |u|
  {
    var s := d[start][SEQ];
    if |u| <= MAX_TXN then if k < CommitPoint(d, start, s, u) then 0 else 1
    else
      var batch, rest := u[..MAX_TXN], u[MAX_TXN..];
      var ws := TxnWrites(d, start, s, batch);
      BatchDone(d, start, s, batch);
      if k < CommitPoint(d, start, s, batch) then 0
      else if k <= |ws| then 1
      else 1 + Batches(Apply(d, ws), start, rest, k - |ws|)
  }

  /** The first j batches of the blocks u. */
  function FirstBatches(u: seq<Update>, j: nat): (v: seq<Update>)
    ensures v <= u
  {
    if MAX_TXN * j < |u| then u[..MAX_TXN * j] else u
  }

  /** The device once the last recovery has run. */
  ghost function Outcome(d: seq<Sector>, start: nat, u: seq<Update>, k: nat, cuts: seq<nat>): seq<Sector>
    requires Ring(d, start, []) && UpdatesOk(u, start, |d|)
  {
    OpWritesInRange(d, start, u);
    FullRecovery(Survive(Apply(d, FirstWrites(OpWrites(d, start, u), k)), start, cuts), start)
  }

  lemma FirstOfTwo(a: seq<Write>, b: seq<Write>, k: nat)
    ensures FirstWrites(a + b, k) == if k <= |a| then FirstWrites(a, k) else a + FirstWrites(b, k - |a|)
  {
    if |a| < k <= |a| + |b| { assert (a + b)[..k] == a + b[..k - |a|]; }
  }

  lemma FirstInRange(ws: seq<Write>, k: nat, size: nat)
    requires InRange(ws, size)
    ensures InRange(FirstWrites(ws, k), size)
  {
  }

  /** Writing one batch home and then another is writing both. */
  lemma HomeTwice(d: seq<Sector>, e: seq<Sector>, start: nat, u: seq<Update>, v: seq<Update>)
    requires UpdatesOk(u, start, |d|) && UpdatesOk(v, start, |d|) &&
      Blocks(e, start) == Blocks(Home(d, start, u), start)
    ensures |e| == |d| && UpdatesOk(u + v, start, |d|) &&
      Blocks(Home(e, start, v), start) == Blocks(Home(d, start, u + v), start)
  {
    BlocksIff(e, Home(d, start, u), start);
    SameTargetsHome(e, Home(d, start, u), start, v);
    HomeWritesInRange(u, start, |d|);
    HomeWritesInRange(v, start, |d|);
    assert HomeWrites(u + v) == HomeWrites(u) + HomeWrites(v);
    ApplyConcat(d, HomeWrites(u), HomeWrites(v));
    BlocksIff(Home(e, start, v), Home(d, start, u + v), start);
  }

  /** The ring is empty and exactly the durable batches are in place. */
  ghost predicate LeavesBatches(d: seq<Sector>, start: nat, u: seq<Update>, k: nat, cuts: seq<nat>)
    requires Ring(d, start, []) && UpdatesOk(u, start, |d|)
  {
    var f := Outcome(d, start, u, k, cuts);
    Ring(f, start, []) && Blocks(f, start) == Blocks(Home(d, start, FirstBatches(u, Batches(d, start, u, k))), start)
  }

  /** The crash theorem for operations of any length: it holds after a crash at any of the writes
      and any number of interrupted recoveries. */
  lemma {:induction false} OpCrash(d: seq<Sector>, start: nat, u: seq<Update>, k: nat, cuts: seq<nat>)
    requires Ring(d, start, []) && UpdatesOk(u, start, |d|)
    ensures LeavesBatches(d, start, u, k, cuts)
    decreases |u|, 1
  {
    if |u| <= MAX_TXN {
      CrashInOnly(d, start, u, k, cuts);
    } else if k <= |TxnWrites(d, start, d[start][SEQ], u[..MAX_TXN])| {
      CrashInFirst(d, start, u, k, cuts);
    } else {
      CrashLater(d, start, u, k, cuts);
    }
  }

  function AfterBatch(d: seq<Sector>, start: nat, u: seq<Update>, ws: seq<Write>): (d': seq<Sector>)
    requires Ring(d, start, []) && UpdatesOk(u, start, |d|) && |u| > MAX_TXN
    requires ws == TxnWrites(d, start, d[start][SEQ], u[..MAX_TXN])
    ensures InRange(ws, |d|) && d' == Apply(d, ws) && |d'| == |d| && Ring(d', start, [])
    ensures Blocks(d', start) == Blocks(Home(d, start, u[..MAX_TXN]), start)
  {
    BatchDone(d, start, d[start][SEQ], u[..MAX_TXN]);
    Apply(d, ws)
  }

  lemma CrashInOnly(d: seq<Sector>, start: nat, u: seq<Update>, k: nat, cuts: seq<nat>)
    requires Ring(d, start, []) && UpdatesOk(u, start, |d|) && |u| <= MAX_TXN
    ensures LeavesBatches(d, start, u, k, cuts)
  {
    var s, f, j := d[start][SEQ], Outcome(d, start, u, k, cuts), Batches(d, start, u, k);
    BatchesOk(u, start, |d|, j);
    CrashAtomicity(d, start, s, u, k, cuts);
    var g := if k < CommitPoint(d, start, s, u) then d else Home(d, start, u);
    BlocksIff(f, g, start);
    assert HomeWrites(u[..0]) == [];
    assert FirstBatches(u, j) == if k < CommitPoint(d, start, s, u) then u[..0] else u;
    assert g == Home(d, start, FirstBatches(u, j));
  }

  /** Up to the end of the first batch the operation runs as that batch alone. */
  lemma FirstOutcome(d: seq<Sector>, start: nat, u: seq<Update>, k: nat, cuts: seq<nat>, ws: seq<Write>)
    requires Ring(d, start, []) && UpdatesOk(u, start, |d|) && |u| > MAX_TXN
    requires ws == TxnWrites(d, start, d[start][SEQ], u[..MAX_TXN]) && k <= |ws|
    ensures InRange(ws, |d|)
    ensures Outcome(d, start, u, k, cuts) == FullRecovery(Survive(Apply(d, FirstWrites(ws, k)), start, cuts), start)
  {
    BatchDone(d, start, d[start][SEQ], u[..MAX_TXN]);
    FirstOfTwo(ws, OpWrites(Apply(d, ws), start, u[MAX_TXN..]), k);
  }

  lemma FirstHome(d: seq<Sector>, start: nat, u: seq<Update>)
    requires UpdatesOk(u, start, |d|) && |u| > MAX_TXN
    ensures Home(d, start, FirstBatches(u, 0)) == d && FirstBatches(u, 1) == u[..MAX_TXN]
  {
    assert HomeWrites(u[..0]) == [];
  }

  lemma CrashInFirst(d: seq<Sector>, start: nat, u: seq<Update>, k: nat, cuts: seq<nat>)
    requires Ring(d, start, []) && UpdatesOk(u, start, |d|) && |u| > MAX_TXN
    requires k <= |TxnWrites(d, start, d[start][SEQ], u[..MAX_TXN])|
    ensures LeavesBatches(d, start, u, k, cuts)
  {
    PartsOk(u, start, |d|);
    var batch, s, f, j := u[..MAX_TXN], d[start][SEQ], Outcome(d, start, u, k, cuts), Batches(d, start, u, k);
    var ws, n := TxnWrites(d, start, s, batch), CommitPoint(d, start, s, batch);
    CrashAtomicity(d, start, s, batch, k, cuts);
    FirstOutcome(d, start, u, k, cuts, ws);
    assert j == if k < n then 0 else 1;
    var g := if k < n then d else Home(d, start, batch);
    BlocksIff(f, g, start);
    BatchesOk(u, start, |d|, j);
    FirstHome(d, start, u);
    assert g == Home(d, start, FirstBatches(u, j));
  }

  /** Past the first batch the rest of the operation runs as an operation of its own. */
  lemma RestOutcome(d: seq<Sector>, start: nat, u: seq<Update>, k: nat, cuts: seq<nat>, ws: seq<Write>, d': seq<Sector>,
                    rest: seq<Update>)
    requires Ring(d, start, []) && UpdatesOk(u, start, |d|) && |u| > MAX_TXN && rest == u[MAX_TXN..]
    requires ws == TxnWrites(d, start, d[start][SEQ], u[..MAX_TXN]) && k > |ws|
    requires InRange(ws, |d|) && d' == Apply(d, ws) && |d'| == |d| && Ring(d', start, []) &&
      UpdatesOk(rest, start, |d'|)
    ensures Outcome(d, start, u, k, cuts) == Outcome(d', start, rest, k - |ws|, cuts)
  {
    var more := OpWrites(d', start, rest);
    OpWritesSplit(d, start, u, d', u[..MAX_TXN], rest);
    OpWritesInRange(d', start, rest);
    FirstOfTwo(ws, more, k);
    FirstInRange(more, k - |ws|, |d|);
    ApplyConcat(d, ws, FirstWrites(more, k - |ws|));
  }

  lemma RestBatches(d: seq<Sector>, start: nat, u: seq<Update>, k: nat, ws: seq<Write>, d': seq<Sector>,
                    rest: seq<Update>)
    requires Ring(d, start, []) && UpdatesOk(u, start, |d|) && |u| > MAX_TXN && rest == u[MAX_TXN..]
    requires ws == TxnWrites(d, start, d[start][SEQ], u[..MAX_TXN]) && k > |ws|
    requires InRange(ws, |d|) && d' == Apply(d, ws) && Ring(d', start, [])
    ensures Batches(d, start, u, k) == 1 + Batches(d', start, rest, k - |ws|)
  {
    BatchDone(d, start, d[start][SEQ], u[..MAX_TXN]);
  }

  lemma BatchesJoin(u: seq<Update>, j: nat)
    requires |u| > MAX_TXN
    ensures u[..MAX_TXN] + FirstBatches(u[MAX_TXN..], j) == FirstBatches(u, j + 1)
  {
  }

  lemma BatchesHome(d: seq<Sector>, start: nat, u: seq<Update>, d': seq<Sector>, rest: seq<Update>, j: nat, n: nat)
    requires UpdatesOk(u, start, |d|) && |u| > MAX_TXN && rest == u[MAX_TXN..] && |d'| == |d| && n == 1 + j
    requires Blocks(d', start) == Blocks(Home(d, start, u[..MAX_TXN]), start)
    ensures Blocks(Home(d', start, FirstBatches(rest, j)), start) == Blocks(Home(d, start, FirstBatches(u, n)), start)
  {
    HomeTwice(d, d', start, u[..MAX_TXN], FirstBatches(rest, j));
    BatchesJoin(u, j);
  }

  lemma {:induction false} CrashLater(d: seq<Sector>, start: nat, u: seq<Update>, k: nat, cuts: seq<nat>)
    requires Ring(d, start, []) && UpdatesOk(u, start, |d|) && |u| > MAX_TXN
    requires k > |TxnWrites(d, start, d[start][SEQ], u[..MAX_TXN])|
    ensures LeavesBatches(d, start, u, k, cuts)
    decreases |u|, 0
  {
    PartsOk(u, start, |d|);
    var ws, rest := TxnWrites(d, start, d[start][SEQ], u[..MAX_TXN]), u[MAX_TXN..];
    var d', k' := AfterBatch(d, start, u, ws), k - |ws|;
    OpCrash(d', start, rest, k', cuts);
    RestOutcome(d, start, u, k, cuts, ws, d', rest);
    RestBatches(d, start, u, k, ws, d', rest);
    var j, n, f := Batches(d', start, rest, k'), Batches(d, start, u, k), Outcome(d, start, u, k, cuts);
    BatchesOk(rest, start, |d|, j);
    BatchesOk(u, start, |d|, n);
    BatchesHome(d, start, u, d', rest, j, n);
    assert Blocks(f, start) == Blocks(Home(d', start, FirstBatches(rest, j)), start);
    assert Blocks(f, start) == Blocks(Home(d, start, FirstBatches(u, n)), start);
  }

  // ----- When an operation is atomic -----

  ghost predicate OldOrNew(f: seq<Sector>, d: seq<Sector>, start: nat, u: seq<Update>)
    requires UpdatesOk(u, start, |d|)
  {
    Blocks(f, start) == Blocks(d, start) || Blocks(f, start) == Blocks(Home(d, start, u), start)
  }

  /** Whatever crash and whatever interrupted recoveries, all blocks are old or all are new. */
  ghost predicate Atomic(d: seq<Sector>, start: nat, u: seq<Update>)
    requires Ring(d, start, []) && UpdatesOk(u, start, |d|)
  {
    forall k: nat, cuts: seq<nat> :: OldOrNew(Outcome(d, start, u, k, cuts), d, start, u)
  }

  /** The first j batches alone make no difference, or all the difference there is. */
  ghost predicate BatchHarmless(d: seq<Sector>, start: nat, u: seq<Update>, j: nat)
    requires UpdatesOk(u, start, |d|)
  {
    OldOrNew(Home(d, start, FirstBatches(u, j)), d, start, u)
  }

  /** Every batch boundary is where some crash leaves the operation. */
  lemma {:induction false} BatchReached(d: seq<Sector>, start: nat, u: seq<Update>, j: nat) returns (k: nat)
    requires Ring(d, start, []) && UpdatesOk(u, start, |d|) && MAX_TXN * j < |u|
    ensures Batches(d, start, u, k) == j
    decreases j
  {
    if j == 0 { return 0; }
    var batch, s := u[..MAX_TXN], d[start][SEQ];
    var ws := TxnWrites(d, start, s, batch);
    BatchDone(d, start, s, batch);
    if j == 1 { return |ws|; }
    var m := BatchReached(Apply(d, ws), start, u[MAX_TXN..], j - 1);
    return |ws| + m;
  }

  lemma AtomicOnlyIf(d: seq<Sector>, start: nat, u: seq<Update>, j: nat)
    requires Ring(d, start, []) && UpdatesOk(u, start, |d|) && MAX_TXN * j < |u| && Atomic(d, start, u)
    ensures BatchHarmless(d, start, u, j)
  {
    var k := BatchReached(d, start, u, j);
    OpCrash(d, start, u, k, []);
    assert OldOrNew(Outcome(d, start, u, k, []), d, start, u);
  }

  lemma AtomicIfHarmless(d: seq<Sector>, start: nat, u: seq<Update>, k: nat, cuts: seq<nat>)
    requires Ring(d, start, []) && UpdatesOk(u, start, |d|)
    requires forall j: nat :: MAX_TXN * j < |u| ==> BatchHarmless(d, start, u, j)
    ensures OldOrNew(Outcome(d, start, u, k, cuts), d, start, u)
  {
    OpCrash(d, start, u, k, cuts);
    var j := Batches(d, start, u, k);
    if MAX_TXN * j < |u| { assert BatchHarmless(d, start, u, j); }
  }

  /** An operation is crash atomic exactly if no batch boundary inside it shows. */
  lemma {:induction false} AtomicIff(d: seq<Sector>, start: nat, u: seq<Update>)
    requires Ring(d, start, []) && UpdatesOk(u, start, |d|)
    ensures Atomic(d, start, u) <==> forall j: nat :: MAX_TXN * j < |u| ==> BatchHarmless(d, start, u, j)
  {
    if Atomic(d, start, u) {
      forall j: nat | MAX_TXN * j < |u| ensures BatchHarmless(d, start, u, j) { AtomicOnlyIf(d, start, u, j); }
    }
    if forall j: nat :: MAX_TXN * j < |u| ==> BatchHarmless(d, start, u, j) {
      forall k: nat, cuts: seq<nat> ensures OldOrNew(Outcome(d, start, u, k, cuts), d, start, u) {
        AtomicIfHarmless(d, start, u, k, cuts);
      }
    }
  }

  lemma NoBatch(d: seq<Sector>, start: nat, u: seq<Update>)
    requires UpdatesOk(u, start, |d|)
    ensures u != [] ==> Home(d, start, FirstBatches(u, 0)) == d
  {
    assert HomeWrites(u[..0]) == [];
  }

  /** So every operation of at most 126 blocks is. */
  lemma ShortOpAtomic(d: seq<Sector>, start: nat, u: seq<Update>)
    requires Ring(d, start, []) && UpdatesOk(u, start, |d|) && |u| <= MAX_TXN
    ensures Atomic(d, start, u)
  {
    forall j: nat | MAX_TXN * j < |u| ensures BatchHarmless(d, start, u, j) {
      assert j == 0;
      NoBatch(d, start, u);
    }
    AtomicIff(d, start, u);
  }

  // ----- An operation that is not atomic -----

  function OneSector(): Sector {
    seq(SECTOR_WORDS, _ => 1)
  }

  function EmptyJsb(): (jsb: Sector)
    ensures GoodJsb(jsb) && jsb[HEAD] == jsb[TAIL] == 0
  {
    var raw: Sector := ZeroSector()[MAGIC := JOURNAL_MAGIC][SEQ := 1][HEAD := 0][TAIL := 0];
    SealedOk(raw);
    Sealed(raw)
  }

  function FreshSector(x: nat): Sector {
    if x == 0 then EmptyJsb() else ZeroSector()
  }

  /** A device of an empty journal followed by n zero blocks. */
  function FreshDevice(n: nat): (d: seq<Sector>)
    ensures |d| == JOURNAL_BLOCKS + n && d[0] == EmptyJsb() && forall x :: 0 < x < |d| ==> d[x] == ZeroSector()
  {
    seq(JOURNAL_BLOCKS + n, x requires 0 <= x => FreshSector(x))
  }

  /** One change to each of the n blocks. */
  function ChangeAll(n: nat): (u: seq<Update>)
    requires n < 0x1000
    ensures |u| == n && forall i :: 0 <= i < n ==> u[i] == Update(JOURNAL_BLOCKS + i, OneSector())
  {
    seq(n, i requires 0 <= i < n => Update(JOURNAL_BLOCKS + i, OneSector()))
  }

  lemma FreshOk(n: nat)
    requires n < 0x1000
    ensures Ring(FreshDevice(n), 0, []) && UpdatesOk(ChangeAll(n), 0, JOURNAL_BLOCKS + n)
  {
  }

  /** Some of the changes in place: the first i blocks hold ones, the others zeros. */
  lemma {:induction false} PartChanged(n: nat, i: nat, x: nat)
    requires i <= n < 0x1000 && x < n
    ensures UpdatesOk(ChangeAll(n)[..i], 0, JOURNAL_BLOCKS + n)
    ensures Home(FreshDevice(n), 0, ChangeAll(n)[..i])[JOURNAL_BLOCKS + x] == if x < i then OneSector()
      else ZeroSector()
    decreases i
  {
    FreshOk(n);
    var d, v := FreshDevice(n), ChangeAll(n)[..i];
    HomeWritesInRange(v, 0, |d|);
    if i > 0 {
      PartChanged(n, i - 1, x);
      assert HomeWrites(v)[..i - 1] == HomeWrites(ChangeAll(n)[..i - 1]);
    }
  }

  lemma OnesAreNotZeros()
    ensures OneSector() != ZeroSector()
  {
    assert OneSector()[0] != ZeroSector()[0];
  }

  /** Some but not all of the changes in place is neither the old nor the new device. */
  lemma PartIsNeither(n: nat, i: nat)
    requires 0 < i < n < 0x1000
    ensures UpdatesOk(ChangeAll(n), 0, |FreshDevice(n)|) && UpdatesOk(ChangeAll(n)[..i], 0, |FreshDevice(n)|)
    ensures !OldOrNew(Home(FreshDevice(n), 0, ChangeAll(n)[..i]), FreshDevice(n), 0, ChangeAll(n))
  {
    FreshOk(n);
    var d, u := FreshDevice(n), ChangeAll(n);
    var f, g := Home(d, 0, u[..i]), Home(d, 0, u);
    PartChanged(n, i, 0);
    PartChanged(n, i, n - 1);
    PartChanged(n, n, n - 1);
    assert u[..n] == u;
    OnesAreNotZeros();
    assert Blocks(f, 0)[JOURNAL_BLOCKS] != Blocks(d, 0)[JOURNAL_BLOCKS];
    assert Blocks(f, 0)[JOURNAL_BLOCKS + n - 1] != Blocks(g, 0)[JOURNAL_BLOCKS + n - 1];
  }

  /** 127 blocks changed in one operation: a crash between the two commits shows 126 of them. */
  lemma LongOpNotAtomic()
    ensures var d, u := FreshDevice(127), ChangeAll(127);
      Ring(d, 0, []) && UpdatesOk(u, 0, |d|) && !Atomic(d, 0, u)
  {
    var d, u := FreshDevice(127), ChangeAll(127);
    FreshOk(127);
    PartIsNeither(127, MAX_TXN);
    assert MAX_TXN * 1 < |u| && FirstBatches(u, 1) == u[..MAX_TXN];
    AtomicIff(d, 0, u);
    assert !BatchHarmless(d, 0, u, 1);
  }

  // ----- The operation as the code runs it -----

  /** A batch in progress: since device d with trace t, the blocks v have been logged. */
  ghost predicate InBatch(d: seq<Sector>, t: seq<Write>, d': seq<Sector>, t': seq<Write>, start: nat, v: seq<Update>) {
    Ring(d, start, []) && |v| <= MAX_TXN && Issued(d, t, d', t', LogAll(d, start, d[start][SEQ], v))
  }

  lemma BatchNext(d: seq<Sector>, t: seq<Write>, d1: seq<Sector>, t1: seq<Write>, d2: seq<Sector>, t2: seq<Write>,
                  start: nat,
                  v: seq<Update>, x: Update)
    requires InBatch(d, t, d1, t1, start, v) && |v| < MAX_TXN &&
      Logged(d1, t1, d2, t2, start, d[start][SEQ], x.block, x.data)
    ensures InBatch(d, t, d2, t2, start, v + [x])
  {
    var s := d[start][SEQ];
    assert (v + [x])[..|v|] == v;
    LogAllSnoc(d, start, s, v + [x]);
    IssuedTwo(d, t, d1, t1, d2, t2, LogAll(d, start, s, v), LogWrites(d1, start, s, x.block, x.data));
  }

  lemma BatchFlushed(d: seq<Sector>, t: seq<Write>, d1: seq<Sector>, t1: seq<Write>, d2: seq<Sector>, t2: seq<Write>,
                     start: nat, v: seq<Update>)
    requires InBatch(d, t, d1, t1, start, v) && Ring(d1, start, Entries(v, d[start][SEQ]))
    requires Issued(d1, t1, d2, t2, FlushWrites(d1, start, d[start][SEQ], Entries(v, d[start][SEQ])))
    ensures Issued(d, t, d2, t2, TxnWrites(d, start, d[start][SEQ], v))
  {
    var s := d[start][SEQ];
    var lw, cw := LogAll(d, start, s, v), CommitWrites(d1, start, s);
    IssuedTwo(d, t, d1, t1, d2, t2, lw, FlushWrites(d1, start, s, Entries(v, s)));
    ConcatAssoc(lw, cw, CheckpointWrites(AfterCommit(d, start, s, v), start, Entries(v, s) + [Entry.Commit(s)]));
  }

  /** The batches before block b are done: their writes `done` led to device e with trace r. */
  ghost predicate Before(d: seq<Sector>, t: seq<Write>, start: nat, u: seq<Update>, b: nat, e: seq<Sector>,
                         r: seq<Write>, done: seq<Write>)
    requires Ring(d, start, []) && UpdatesOk(u, start, |d|) && b <= |u|
  {
    && Issued(d, t, e, r, done) && Ring(e, start, []) && UpdatesOk(u[b..], start, |e|)
    && OpWrites(d, start, u) == done + OpWrites(e, start, u[b..])
  }

  lemma OpWritesSplit(d: seq<Sector>, start: nat, u: seq<Update>, d': seq<Sector>, v: seq<Update>, rest: seq<Update>)
    requires Ring(d, start, []) && UpdatesOk(u, start, |d|) && |u| > MAX_TXN && v == u[..MAX_TXN] &&
      rest == u[MAX_TXN..]
    requires var ws := TxnWrites(d, start, d[start][SEQ], v);
      InRange(ws, |d|) && d' == Apply(d, ws) && Ring(d', start, [])
    ensures UpdatesOk(rest, start, |d'|)
    ensures OpWrites(d, start, u) == TxnWrites(d, start, d[start][SEQ], v) + OpWrites(d', start, rest)
  {
    PartsOk(u, start, |d|);
  }

  lemma BatchSlices(u: seq<Update>, b: nat, n: nat)
    requires n == b + MAX_TXN && n < |u|
    ensures u[b..][..MAX_TXN] == u[b..n] && u[b..][MAX_TXN..] == u[n..]
  {
  }

  /** The batch is full: its writes join those done and a new batch starts. */
  lemma NextBatch(d: seq<Sector>, t: seq<Write>, start: nat, u: seq<Update>, n: nat, b: nat, e: seq<Sector>,
                  r: seq<Write>, done: seq<Write>,
                  e': seq<Sector>, r': seq<Write>, ws: seq<Write>)
    requires Ring(d, start, []) && UpdatesOk(u, start, |d|) && b <= |u| && Before(d, t, start, u, b, e, r, done)
    requires n < |u| && n == b + MAX_TXN && ws == TxnWrites(e, start, e[start][SEQ], u[b..n])
    requires Ring(e', start, []) && Issued(e, r, e', r', ws)
    ensures Before(d, t, start, u, n, e', r', done + ws)
  {
    IssuedTwo(d, t, e, r, e', r', done, ws);
    BatchSlices(u, b, n);
    OpWritesSplit(e, start, u[b..], e', u[b..n], u[n..]);
    ConcatAssoc(done, ws, OpWrites(e', start, u[n..]));
  }

  lemma NextBlock(u: seq<Update>, b: nat, n: nat, s: word)
    requires b <= n < |u|
    ensures u[b..n] + [u[n]] == u[b..n + 1] && u[n..n] == []
    ensures Entries(u[b..n + 1], s) == Entries(u[b..n], s) + [Data(s, u[n].block, u[n].data)]
  {
  }

  lemma EmptyBatch(d: seq<Sector>, t: seq<Write>, start: nat)
    requires Ring(d, start, [])
    ensures InBatch(d, t, d, t, start, []) && forall s :: Entries([], s) == []
  {
    assert t + [] == t;
  }

  /** The first n blocks are logged: those before b in finished batches, the others in the batch
      that device e started and d' with trace t', number q and entries `live` is in. */
  ghost predicate Logging(d: seq<Sector>, t: seq<Write>, start: nat, u: seq<Update>, n: nat, b: nat, e: seq<Sector>,
                          r: seq<Write>,
                          done: seq<Write>, d': seq<Sector>, t': seq<Write>, q: word, live: seq<Entry>)
    requires Ring(d, start, []) && UpdatesOk(u, start, |d|) && n <= |u|
  {
    && b <= n && Before(d, t, start, u, b, e, r, done) && InBatch(e, r, d', t', start, u[b..n])
    && q == e[start][SEQ] && live == Entries(u[b..n], q)
  }

  lemma {:induction false} LoggingDone(d: seq<Sector>, t: seq<Write>, start: nat, u: seq<Update>, b: nat,
                                       e: seq<Sector>, r: seq<Write>,
                    done: seq<Write>, d': seq<Sector>, t': seq<Write>, q: word, live: seq<Entry>, v: seq<Update>)
    requires Ring(d, start, []) && UpdatesOk(u, start, |d|) && b <= |u| && v == u[b..]
    requires Logging(d, t, start, u, |u|, b, e, r, done, d', t', q, live)
    ensures Before(d, t, start, u, b, e, r, done) && InBatch(e, r, d', t', start, v)
    ensures q == e[start][SEQ] && live == Entries(v, q)
  {
    WholeTail(u, b);
  }

  lemma WholeTail(u: seq<Update>, b: nat)
    requires b <= |u|
    ensures u[b..|u|] == u[b..]
  {
  }

  /** Log block n of the operation. */
  method OpStep(mj: MetaJournal, u: seq<Update>, n: nat, ghost d: seq<Sector>, ghost t: seq<Write>,
                ghost b: nat, ghost e: seq<Sector>, ghost r: seq<Write>, ghost done: seq<Write>)
    returns (ghost b': nat, ghost e': seq<Sector>, ghost r': seq<Write>, ghost done': seq<Write>)
    requires mj.Valid() && mj.active && Ring(d, mj.start, []) && UpdatesOk(u, mj.start, |d|) && b <= n < |u|
    requires Logging(d, t, mj.start, u, n, b, e, r, done, mj.dev.sectors, mj.dev.trace, mj.journalSeq, mj.live)
    modifies mj`journalSeq, mj`live, mj.dev
    ensures mj.Valid() && b' <= n
    ensures Logging(d, t, mj.start, u, n + 1, b', e', r', done', mj.dev.sectors, mj.dev.trace, mj.journalSeq, mj.live)
  {
    ghost var start, s, d1, t1, es := mj.start, mj.journalSeq, mj.dev.sectors, mj.dev.trace, mj.live;
    assert |es| == n - b;
    var err := mj.WriteMeta(u[n].block, u[n].data);
    b', e', r', done' := b, e, r, done;
    if |es| == MAX_LIVE {
      ghost var d2, t2 :| Issued(d1, t1, d2, t2, FlushWrites(d1, start, s, es)) && Flushed(d1, start, es, s, d2)
        && Logged(d2, t2, mj.dev.sectors, mj.dev.trace, start, NextSeq(s), u[n].block, u[n].data);
      ghost var ws := TxnWrites(e, start, s, u[b..n]);
      BatchFlushed(e, r, d1, t1, d2, t2, start, u[b..n]);
      NextBatch(d, t, start, u, n, b, e, r, done, d2, t2, ws);
      b', e', r', done' := n, d2, t2, done + ws;
      EmptyBatch(d2, t2, start);
      BatchNext(d2, t2, d2, t2, mj.dev.sectors, mj.dev.trace, start, [], u[n]);
      NextBlock(u, n, n, mj.journalSeq);
    } else {
      BatchNext(e, r, d1, t1, mj.dev.sectors, mj.dev.trace, start, u[b..n], u[n]);
      NextBlock(u, b, n, mj.journalSeq);
    }
  }

  /** The last batch of the operation. */
  lemma LastBatch(d: seq<Sector>, t: seq<Write>, d1: seq<Sector>, t1: seq<Write>, d2: seq<Sector>, t2: seq<Write>,
                  start: nat,
                  u: seq<Update>, b: nat, e: seq<Sector>, r: seq<Write>, done: seq<Write>, v: seq<Update>, q: word,
                    live: seq<Entry>)
    requires Ring(d, start, []) && UpdatesOk(u, start, |d|) && b <= |u| && v == u[b..] &&
      Before(d, t, start, u, b, e, r, done)
    requires InBatch(e, r, d1, t1, start, v) && q == e[start][SEQ] && live == Entries(v, q) && Ring(d1, start, live)
    requires Issued(d1, t1, d2, t2, FlushWrites(d1, start, q, live))
    ensures Issued(d, t, d2, t2, OpWrites(d, start, u))
  {
    BatchFlushed(e, r, d1, t1, d2, t2, start, v);
    var ws := TxnWrites(e, start, e[start][SEQ], v);
    assert OpWrites(e, start, v) == ws;
    IssuedTwo(d, t, e, r, d2, t2, done, ws);
  }

  /** An operation run through sfs_begin_op, sfs_write_meta and sfs_end_op issues exactly the writes
      that the crash theorem quantifies over. */
  method RunOp(mj: MetaJournal, u: seq<Update>)
    requires mj.Valid() && mj.active && mj.nest == 0 && mj.live == [] && UpdatesOk(u, mj.start, |mj.dev.sectors|)
    modifies mj, mj.dev
    ensures mj.Valid() && mj.live == [] && mj.nest == 0
    ensures Issued(old(mj.dev.sectors), old(mj.dev.trace), mj.dev.sectors, mj.dev.trace,
      OpWrites(old(mj.dev.sectors), mj.start, u))
  {
    ghost var d, t := mj.dev.sectors, mj.dev.trace;
    mj.BeginOp();
    ghost var b, e, r, done, v := LogBlocks(mj, u);
    ghost var d1, t1, live := mj.dev.sectors, mj.dev.trace, mj.live;
    var err := mj.EndOp();
    LastBatch(d, t, d1, t1, mj.dev.sectors, mj.dev.trace, mj.start, u, b, e, r, done, v, mj.journalSeq, live);
  }

  lemma OpStart(d: seq<Sector>, t: seq<Write>, start: nat, u: seq<Update>)
    requires Ring(d, start, []) && UpdatesOk(u, start, |d|)
    ensures Before(d, t, start, u, 0, d, t, []) && InBatch(d, t, d, t, start, u[0..0]) &&
      forall s :: Entries(u[0..0], s) == []
  {
    EmptyBatch(d, t, start);
    assert u[0..0] == [] && u[0..] == u && t + [] == t;
  }

  method LogBlocks(mj: MetaJournal, u: seq<Update>)
    returns (ghost b: nat, ghost e: seq<Sector>, ghost r: seq<Write>, ghost done: seq<Write>, ghost v: seq<Update>)
    requires mj.Valid() && mj.active && mj.live == [] && UpdatesOk(u, mj.start, |mj.dev.sectors|)
    requires mj.journalSeq == mj.dev.sectors[mj.start][SEQ]
    modifies mj`journalSeq, mj`live, mj.dev
    ensures mj.Valid() && b <= |u| && Before(old(mj.dev.sectors), old(mj.dev.trace), mj.start, u, b, e, r, done)
    ensures v == u[b..] && InBatch(e, r, mj.dev.sectors, mj.dev.trace, mj.start, v)
    ensures mj.journalSeq == e[mj.start][SEQ] && mj.live == Entries(v, mj.journalSeq)
  {
    ghost var d, t := mj.dev.sectors, mj.dev.trace;
    OpStart(d, t, mj.start, u);
    b, e, r, done := 0, d, t, [];
    for n := 0 to |u|
      invariant mj.Valid() && b <= n
      invariant Logging(d, t, mj.start, u, n, b, e, r, done, mj.dev.sectors, mj.dev.trace, mj.journalSeq, mj.live)
    {
      b, e, r, done := OpStep(mj, u, n, d, t, b, e, r, done);
    }
    v := u[b..];
    LoggingDone(d, t, mj.start, u, b, e, r, done, mj.dev.sectors, mj.dev.trace, mj.journalSeq, mj.live, v);
  }
}
