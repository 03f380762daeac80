/** Journal space and transaction boundaries, as the filesystem drives them, and the
    agreement of checkpoint and recovery on rings of several transactions. */
module JournalSpace {
  import opened Device
  import opened Journal
  import opened JournalOps

  predicate AllData(es: seq<Entry>) {
    forall i :: 0 <= i < |es| ==> es[i].Data?
  }

  const MAX_LIVE := 126

  lemma {:induction false} AllDataTotal(es: seq<Entry>)
    requires AllData(es)
    ensures Total(es) == 2 * |es| && CommitEnd(es) == 0
  {
    if es != [] { AllDataTotal(es[..|es| - 1]); }
  }

  lemma CommitOver(es: seq<Entry>, s: word)
    requires AllData(es)
    ensures var cs := es + [Entry.Commit(s)];
      CommitEnd(cs) == |cs| && cs[|cs|..] == [] && cs[..|cs|] == cs && DataWrites(cs) == DataWrites(es)
  {
    assert (es + [Entry.Commit(s)])[..|es|] == es;
  }

  /** The writes `ws` were issued: they changed device d with trace t to d' with trace t'. */
  ghost predicate Issued(d: seq<Sector>, t: seq<Write>, d': seq<Sector>, t': seq<Write>, ws: seq<Write>) {
    InRange(ws, |d|) && d' == Apply(d, ws) && t' == t + ws
  }

  lemma IssuedTwo(d: seq<Sector>, t: seq<Write>, d1: seq<Sector>, t1: seq<Write>, d2: seq<Sector>, t2: seq<Write>,
                  a: seq<Write>, b: seq<Write>)
    requires Issued(d, t, d1, t1, a) && Issued(d1, t1, d2, t2, b)
    ensures Issued(d, t, d2, t2, a + b)
  {
    ApplyConcat(d, a, b);
    ConcatAssoc(t, a, b);
  }

  /** The writes that commit the live entries es under number s and take them home. */
  function FlushWrites(d: seq<Sector>, start: nat, s: word, es: seq<Entry>): seq<Write>
    requires Ring(d, start, es) && AllData(es) && |es| <= MAX_LIVE
  {
    AllDataTotal(es);
    CommitCrash(d, start, es, s, 2);
    assert CommitWrites(d, start, s)[..2] == CommitWrites(d, start, s);
    var c := Apply(d, CommitWrites(d, start, s));
    CommitWrites(d, start, s) + CheckpointWrites(c, start, es + [Entry.Commit(s)])
  }

  /** What flushing the live entries leaves. */
  ghost predicate Flushed(d: seq<Sector>, start: nat, es: seq<Entry>, s: word, d': seq<Sector>) {
    && Ring(d', start, []) && InRange(DataWrites(es), |d|) && SameTargets(d', Apply(d, DataWrites(es)), start)
    && d'[start][SEQ] == NextSeq(s)
  }

  /** The full ring es was flushed under number s, then the block was logged under the next number. */
  ghost predicate FlushedAndLogged(d: seq<Sector>, t: seq<Write>, d': seq<Sector>, t': seq<Write>, start: nat,
                                   es: seq<Entry>, s: word,
                                   block: word, data: Sector)
    requires Ring(d, start, es) && AllData(es) && |es| <= MAX_LIVE
  {
    exists d1, t1 {:trigger Issued(d, t, d1, t1, FlushWrites(d, start, s, es))} ::
      && Issued(d, t, d1, t1, FlushWrites(d, start, s, es)) && Flushed(d, start, es, s, d1)
      && Logged(d1, t1, d', t', start, NextSeq(s), block, data)
  }

  /** The journal fields of a mounted filesystem. `live` names the entries in the ring. */
  class MetaJournal {
    const dev: BlockDev
    const start: nat
    const active: bool
    var journalSeq: word
    var nest: nat
    ghost var live: seq<Entry>

    /** Between filesystem operations the ring holds DATA pairs only, at most 126 of them. */
    ghost predicate Valid()
      reads this, dev
    {
      && Ring(dev.sectors, start, live) && TargetsOk(live, start, |dev.sectors|)
      && AllData(live) && |live| <= MAX_LIVE
    }

    constructor (dev: BlockDev, start: nat, active: bool)
      requires Ring(dev.sectors, start, [])
      ensures Valid() && live == [] && nest == 0
      ensures this.dev == dev && this.start == start && this.active == active
    {
      this.dev, this.start, this.active := dev, start, active;
      journalSeq, nest, live := 0, 0, [];
    }

    /** Commit whatever is live and write it home. */
    method CommitAndCheckpoint() returns (e: Err)
      requires Valid()
      modifies this`live, dev
      ensures Valid() && live == [] && e == Ok
      ensures Flushed(old(dev.sectors), start, old(live), journalSeq, dev.sectors)
      ensures Issued(old(dev.sectors), old(dev.trace), dev.sectors, dev.trace,
                FlushWrites(old(dev.sectors), start, journalSeq, old(live)))
    {
      ghost var d, t := dev.sectors, dev.trace;
      AllDataTotal(live);
      CommitOver(live, journalSeq);
      e := JournalOps.Commit(dev, start, journalSeq, live);
      ghost var cs := live + [Entry.Commit(journalSeq)];
      ghost var c, u := dev.sectors, dev.trace;
      Checkpoint(dev, start, cs);
      IssuedTwo(d, t, c, u, dev.sectors, dev.trace, CommitWrites(d, start, journalSeq), CheckpointWrites(c, start, cs));
      FlushedHome(d, c, dev.sectors, start, live, journalSeq);
      live := [];
    }

    /** sfs_begin_op */
    method BeginOp()
      requires Valid()
      modifies this`journalSeq, this`nest
      ensures Valid()
      ensures nest == if active then old(nest) + 1 else old(nest)
      ensures journalSeq == if active && old(nest) == 0 then dev.sectors[start][SEQ] else old(journalSeq)
    {
      if !active { return; }
      if nest > 0 { nest := nest + 1; return; }
      journalSeq := StartTxn(dev, start);
      nest := 1;
    }

    /** sfs_end_op: the outermost end commits and checkpoints, and neither can run out of space. */
    method EndOp() returns (e: Err)
      requires Valid()
      modifies this`nest, this`live, dev
      ensures Valid() && e == Ok
      ensures !active ==> dev.sectors == old(dev.sectors) && live == old(live) && nest == old(nest)
      ensures active && old(nest) > 1 ==> dev.sectors == old(dev.sectors) && live == old(live) && nest == old(nest) - 1
      ensures active && old(nest) <= 1 ==>
        && live == [] && nest == 0 && Flushed(old(dev.sectors), start, old(live), journalSeq, dev.sectors)
        && Issued(old(dev.sectors), old(dev.trace), dev.sectors, dev.trace,
             FlushWrites(old(dev.sectors), start, journalSeq, old(live)))
    {
      if !active { return Ok; }
      if nest > 1 { nest := nest - 1; return Ok; }
      nest := 0;
      e := CommitAndCheckpoint();
    }

    /** sfs_write_meta, the journal half: when the ring is full it commits, checkpoints and
        retries, and the retry always finds room. */
    method WriteMeta(block: word, data: Sector) returns (e: Err)
      requires Valid() && block < |dev.sectors| && !InJournal(start, block)
      modifies this`journalSeq, this`live, dev
      ensures Valid() && e == Ok
      ensures !active ==>
        dev.sectors == old(dev.sectors) && dev.trace == old(dev.trace) && live == old(live) &&
          journalSeq == old(journalSeq)
      ensures active && |old(live)| < MAX_LIVE ==>
        && journalSeq == old(journalSeq) && live == old(live) + [Data(journalSeq, block, data)]
        && Logged(old(dev.sectors), old(dev.trace), dev.sectors, dev.trace, start, journalSeq, block, data)
      ensures active && |old(live)| == MAX_LIVE ==>
        && journalSeq == NextSeq(old(journalSeq)) && live == [Data(journalSeq, block, data)]
        && FlushedAndLogged(old(dev.sectors), old(dev.trace), dev.sectors, dev.trace, start, old(live), old(journalSeq),
            block, data)
    {
      if !active { return Ok; }
      e := LogLive(block, data);
      if e == NoSpace { e := Retry(block, data); }
    }

    method Retry(block: word, data: Sector) returns (e: Err)
      requires Valid() && block < |dev.sectors| && !InJournal(start, block)
      modifies this`journalSeq, this`live, dev
      ensures Valid() && e == Ok
      ensures journalSeq == NextSeq(old(journalSeq)) && live == [Data(journalSeq, block, data)]
      ensures FlushedAndLogged(old(dev.sectors), old(dev.trace), dev.sectors, dev.trace, start, old(live),
        old(journalSeq), block, data)
    {
      e := CommitAndCheckpoint();
      journalSeq := StartTxn(dev, start);
      ghost var d, t := dev.sectors, dev.trace;
      e := LogLive(block, data);
      assert [] + [Data(journalSeq, block, data)] == [Data(journalSeq, block, data)];
      assert Issued(old(dev.sectors), old(dev.trace), d, t,
        FlushWrites(old(dev.sectors), start, old(journalSeq), old(live)));
    }

    /** journal_log on the live ring finds room exactly if fewer than 126 blocks are live. */
    method LogLive(block: word, data: Sector) returns (e: Err)
      requires Valid() && block < |dev.sectors| && !InJournal(start, block)
      modifies this`live, dev
      ensures Valid() && (e == NoSpace <==> |old(live)| == MAX_LIVE)
      ensures e == NoSpace ==> dev.sectors == old(dev.sectors) && dev.trace == old(dev.trace) && live == old(live)
      ensures e == Ok ==> live == old(live) + [Data(journalSeq, block, data)]
      ensures e == Ok ==>
        Logged(old(dev.sectors), old(dev.trace), dev.sectors, dev.trace, start, journalSeq, block, data)
    {
      AllDataTotal(live);
      e := Log(dev, start, journalSeq, block, data, live);
      if e == Ok { live := live + [Data(journalSeq, block, data)]; }
    }
  }

  /** One block logged, the home blocks untouched. */
  ghost predicate Logged(d: seq<Sector>, t: seq<Write>, d': seq<Sector>, t': seq<Write>, start: nat, s: word,
                         block: word, data: Sector) {
    && Layout(d, start) && Issued(d, t, d', t', LogWrites(d, start, s, block, data))
    && SameTargets(d', d, start) && d'[start][SEQ] == d[start][SEQ]
  }

  /** A checkpoint right after the commit leaves the live entries at home and the ring empty. */
  lemma FlushedHome(d: seq<Sector>, c: seq<Sector>, d': seq<Sector>, start: nat, es: seq<Entry>, s: word)
    requires Layout(d, start) && TargetsOk(es, start, |d|) && SameTargets(c, d, start) && AllData(es)
    requires var cs := es + [Entry.Commit(s)];
      && Ring(d', start, cs[CommitEnd(cs)..]) && InRange(DataWrites(cs[..CommitEnd(cs)]), |c|)
      && SameTargets(d', Apply(c, DataWrites(cs[..CommitEnd(cs)])), start)
    requires d'[start][SEQ] == NextSeq(s)
    ensures Flushed(d, start, es, s, d')
  {
    CommitOver(es, s);
    DataWritesOutside(es, start, |d|);
    forall x: nat | x < |d| && !InJournal(start, x) ensures d'[x] == Apply(d, DataWrites(es))[x] {
      ApplyAgree(c, d, DataWrites(es), x);
    }
  }

  // ----- Several transactions in the ring -----

  predicate NoCommitBetween(es: seq<Entry>, i: nat, j: nat)
    requires i < j <= |es|
  {
    forall m :: i < m < j ==> es[m].Data?
  }

  /** The entry belongs to the transaction that the COMMIT at position j closes. */
  predicate Numbered(es: seq<Entry>, i: nat, j: nat)
    requires i < j < |es|
  {
    es[i].Data? && es[j].Commit? ==> (es[i].s == es[j].s <==> NoCommitBetween(es, i, j))
  }

  /** Every DATA entry carries the number of the next COMMIT after it and of no later one. */
  ghost predicate Sequential(es: seq<Entry>) {
    forall i, j :: 0 <= i < j < |es| ==> Numbered(es, i, j)
  }

  lemma {:induction false} DataWritesConcat(a: seq<Entry>, b: seq<Entry>)
    ensures DataWrites(a + b) == DataWrites(a) + DataWrites(b)
    decreases |b|
  {
    if b == [] {
      assert a + b == a;
    } else {
      DataWritesConcat(a, b[..|b| - 1]);
      assert (a + b)[..|a + b| - 1] == a + b[..|b| - 1];
    }
  }

  lemma {:induction false} CommitEndSplits(es: seq<Entry>)
    ensures CommitEnd(es) > 0 ==> es[CommitEnd(es) - 1].Commit?
    ensures forall i :: CommitEnd(es) <= i < |es| ==> es[i].Data?
  {
    if es != [] && es[|es| - 1].Data? { CommitEndSplits(es[..|es| - 1]); }
  }

  /** Which DATA entries before the last COMMIT of `es` carry its number: those after the
      COMMIT before it. */
  lemma BelongsIff(es: seq<Entry>, i: nat)
    requires es != [] && es[|es| - 1].Commit? && Sequential(es) && i < |es| - 1 && es[i].Data?
    ensures es[i].s == es[|es| - 1].s <==> CommitEnd(es[..|es| - 1]) <= i
  {
    var init := es[..|es| - 1];
    CommitEndSplits(init);
    assert Numbered(es, i, |es| - 1);
    var n := CommitEnd(init);
    if n > i {
      assert es[n - 1] == init[n - 1];
    } else {
      assert forall m :: i < m < |es| - 1 ==> es[m] == init[m];
    }
  }

  /** Scanning for one transaction's number picks up nothing before the previous COMMIT and
      everything after it. */
  lemma {:induction false} MatchingIsSuffix(es: seq<Entry>, m: nat)
    requires es != [] && es[|es| - 1].Commit? && Sequential(es) && m < |es|
    ensures var n := CommitEnd(es[..|es| - 1]);
      MatchingWrites(es[..m], es[|es| - 1].s) == if m <= n then [] else DataWrites(es[n..m])
  {
    var n := CommitEnd(es[..|es| - 1]);
    if m > 0 {
      MatchingIsSuffix(es, m - 1);
      MatchingWritesStep(es, es[|es| - 1].s, m - 1);
      if es[m - 1].Data? { BelongsIff(es, m - 1); }
      if m > n {
        assert es[n..m][..m - n - 1] == es[n..m - 1] && es[n..m][m - n - 1] == es[m - 1];
      }
    }
  }

  lemma SequentialInit(es: seq<Entry>)
    requires es != [] && Sequential(es)
    ensures Sequential(es[..|es| - 1])
  {
    var init := es[..|es| - 1];
    forall i, j | 0 <= i < j < |init| ensures Numbered(init, i, j) {
      assert Numbered(es, i, j);
      assert forall m :: i < m < j ==> es[m] == init[m];
    }
  }

  lemma CommitClosesSuffix(es: seq<Entry>, n: nat)
    requires es != [] && es[|es| - 1].Commit? && n <= |es| - 1
    ensures var k := |es| - 1;
      DataWrites(es[..|es|]) == DataWrites(es[..k][..n]) + DataWrites(es[n..k])
  {
    var k := |es| - 1;
    var init := es[..k];
    assert init == init[..n] + es[n..k];
    DataWritesConcat(init[..n], es[n..k]);
    assert es[..|es|] == es;
    assert DataWrites(es) == DataWrites(init);
  }

  /** On rings of any number of transactions with distinct numbers, recovery replays exactly
      what a checkpoint would: the in-order fold of all DATA entries before the last COMMIT. */
  lemma {:induction false} RecoveryMatchesCheckpoint(es: seq<Entry>)
    requires Sequential(es)
    ensures ReplayWrites(es) == DataWrites(es[..CommitEnd(es)])
  {
    if es != [] {
      var k := |es| - 1;
      var init, last := es[..k], es[k];
      SequentialInit(es);
      RecoveryMatchesCheckpoint(init);
      var n := CommitEnd(init);
      if last.Commit? {
        MatchingIsSuffix(es, k);
        CommitClosesSuffix(es, n);
      } else {
        assert es[..n] == init[..n];
      }
    }
  }
}
