/** The home half of sfs_write_meta: after logging a block it also writes it in place. Nothing takes
    such a write back, so what a crash shows depends on which of them reached the device. */
module WriteThrough {
  import opened Device
  import opened Journal
  import opened JournalOps
  import opened JournalCrash
  import opened JournalSpace
  import opened MetaOps

  // ----- Home writes and journal writes in any order -----

  /** The writes zs are those of ws and those of hs, each in its order. */
  predicate Shuffle(zs: seq<Write>, ws: seq<Write>, hs: seq<Write>)
    decreases |zs|
  {
    if zs == [] then ws == [] && hs == []
    else
      var n := |zs| - 1;
      || (ws != [] && ws[|ws| - 1] == zs[n] && Shuffle(zs[..n], ws[..|ws| - 1], hs))
      || (hs != [] && hs[|hs| - 1] == zs[n] && Shuffle(zs[..n], ws, hs[..|hs| - 1]))
  }

  lemma {:induction false} ApplyCommutes(d: seq<Sector>, ws: seq<Write>, w: Write)
    requires InRange(ws, |d|) && w.lba < |d| && !Touches(ws, w.lba)
    ensures Apply(d[w.lba := w.data], ws) == Apply(d, ws)[w.lba := w.data]
    decreases |ws|
  {
    if ws != [] {
      var n := |ws| - 1;
      assert ws[n].lba != w.lba;
      ApplyCommutes(d, ws[..n], w);
    }
  }

  predicate InsideJournal(ws: seq<Write>, start: nat) {
    forall i :: 0 <= i < |ws| ==> InJournal(start, ws[i].lba)
  }

  lemma InsideConcat(a: seq<Write>, b: seq<Write>, start: nat)
    requires InsideJournal(a, start) && InsideJournal(b, start)
    ensures InsideJournal(a + b, start)
  {
  }

  lemma InsidePrefix(a: seq<Write>, b: seq<Write>, start: nat, n: nat)
    requires InsideJournal(a, start) && n <= |a|
    ensures InsideJournal((a + b)[..n], start)
  {
    assert (a + b)[..n] == a[..n];
  }

  lemma {:induction false} ShuffleOn(zs: seq<Write>, ws: seq<Write>, hs: seq<Write>, xs: seq<Write>)
    requires Shuffle(zs, ws, hs)
    ensures Shuffle(zs + xs, ws + xs, hs)
    decreases |xs|
  {
    if xs == [] {
      assert zs + xs == zs && ws + xs == ws;
    } else {
      var n := |xs| - 1;
      ShuffleOn(zs, ws, hs, xs[..n]);
      assert (zs + xs)[..|zs| + n] == zs + xs[..n] && (ws + xs)[..|ws| + n] == ws + xs[..n];
    }
  }

  lemma ShuffleHome(zs: seq<Write>, ws: seq<Write>, hs: seq<Write>, h: Write)
    requires Shuffle(zs, ws, hs)
    ensures Shuffle(zs + [h], ws, hs + [h])
  {
    assert (zs + [h])[..|zs|] == zs && (hs + [h])[..|hs|] == hs;
  }

  /** Whatever the order, the device is as if the home writes had come first. */
  lemma {:induction false} ShuffleApply(d: seq<Sector>, start: nat, zs: seq<Write>, ws: seq<Write>, hs: seq<Write>)
    requires Shuffle(zs, ws, hs) && InRange(ws, |d|) && InsideJournal(ws, start) && Outside(hs, start, |d|)
    ensures InRange(hs, |d|) && InRange(zs, |d|) && Apply(d, zs) == Apply(Apply(d, hs), ws)
    decreases |zs|
  {
    if zs != [] {
      var n := |zs| - 1;
      if ws != [] && ws[|ws| - 1] == zs[n] && Shuffle(zs[..n], ws[..|ws| - 1], hs) {
        ShuffleApply(d, start, zs[..n], ws[..|ws| - 1], hs);
      } else {
        var hi := hs[..|hs| - 1];
        ShuffleApply(d, start, zs[..n], ws, hi);
        ApplyCommutes(Apply(d, hi), ws, zs[n]);
      }
    }
  }

  // ----- The journal writes do not depend on the home blocks -----

  lemma LogWritesInside(c: seq<Sector>, start: nat, es: seq<Entry>, s: word, block: word, data: Sector)
    requires Ring(c, start, es)
    ensures InsideJournal(LogWrites(c, start, s, block, data), start) && InsideJournal(CommitWrites(c, start, s), start)
  {
  }

  lemma {:induction false} LogAllInside(d: seq<Sector>, start: nat, s: word, u: seq<Update>)
    requires Ring(d, start, []) && |u| <= MAX_TXN
    ensures InsideJournal(LogAll(d, start, s, u), start)
  {
    if u != [] {
      var init := u[..|u| - 1];
      LogAllInside(d, start, s, init);
      LogAllSnoc(d, start, s, u);
      var c := Apply(d, LogAll(d, start, s, init));
      EntriesTotal(init, s);
      LogWritesInside(c, start, Entries(init, s), s, u[|u| - 1].block, u[|u| - 1].data);
      InsideConcat(LogAll(d, start, s, init), LogWrites(c, start, s, u[|u| - 1].block, u[|u| - 1].data), start);
    }
  }

  lemma {:induction false} LogAllSame(d: seq<Sector>, e: seq<Sector>, start: nat, s: word, u: seq<Update>)
    requires Ring(d, start, []) && Ring(e, start, []) && |d| == |e| && d[start] == e[start] && |u| <= MAX_TXN
    ensures LogAll(d, start, s, u) == LogAll(e, start, s, u)
    ensures AfterLog(d, start, s, u)[start] == AfterLog(e, start, s, u)[start]
  {
    if u != [] {
      LogAllSame(d, e, start, s, u[..|u| - 1]);
      LogAllSnoc(d, start, s, u);
      LogAllSnoc(e, start, s, u);
    }
    ApplyAgree(d, e, LogAll(d, start, s, u), start);
  }

  lemma TxnWritesSame(d: seq<Sector>, e: seq<Sector>, start: nat, s: word, u: seq<Update>)
    requires Ring(d, start, []) && Ring(e, start, []) && |d| == |e| && d[start] == e[start] && |u| <= MAX_TXN
    ensures TxnWrites(d, start, s, u) == TxnWrites(e, start, s, u)
  {
    LogAllSame(d, e, start, s, u);
    var l, m := AfterLog(d, start, s, u), AfterLog(e, start, s, u);
    var a, b := AfterCommit(d, start, s, u), AfterCommit(e, start, s, u);
    assert CommitWrites(l, start, s) == CommitWrites(m, start, s);
    ApplyAgree(l, m, CommitWrites(l, start, s), start);
    var es := Entries(u, s) + [Entry.Commit(s)];
    assert EntrySlot(a, start, es, CommitEnd(es)) == EntrySlot(b, start, es, CommitEnd(es));
    assert CheckpointWrites(a, start, es) == CheckpointWrites(b, start, es);
  }

  /** Up to the commit a transaction only writes the journal. */
  lemma BeforeCommitInside(d: seq<Sector>, start: nat, s: word, u: seq<Update>, n: nat)
    requires Ring(d, start, []) && |u| <= MAX_TXN && UpdatesOk(u, start, |d|) && n <= CommitPoint(d, start, s, u)
    ensures n <= |TxnWrites(d, start, s, u)| && InRange(TxnWrites(d, start, s, u), |d|)
    ensures InsideJournal(TxnWrites(d, start, s, u)[..n], start)
  {
    LogAllInside(d, start, s, u);
    BatchDone(d, start, s, u);
    var l := AfterLog(d, start, s, u);
    var lw, cw := LogAll(d, start, s, u), CommitWrites(l, start, s);
    LogWritesInside(l, start, Entries(u, s), s, 0, ZeroSector());
    InsideConcat(lw, cw, start);
    InsidePrefix(lw + cw, CheckpointWrites(AfterCommit(d, start, s, u), start, Entries(u, s) + [Entry.Commit(s)]),
      start, n);
  }

  // ----- Early writes are not taken back -----

  /** The writes that have reached the device: the first k of the transaction, the blocks `early`
      written home among those before the commit, in the order zs. */
  ghost predicate EarlyRun(d: seq<Sector>, start: nat, s: word, u: seq<Update>, k: nat, early: seq<Update>,
                           zs: seq<Write>, run: seq<Write>)
    requires Ring(d, start, []) && |u| <= MAX_TXN && UpdatesOk(u, start, |d|)
  {
    var ws, n := TxnWrites(d, start, s, u), CommitPoint(d, start, s, u);
    && k <= |ws| && UpdatesOk(early, start, |d|)
    && (if k < n then Shuffle(zs, ws[..k], HomeWrites(early)) && run == zs
        else n <= |ws| && Shuffle(zs, ws[..n], HomeWrites(early)) && run == zs + ws[n..k])
  }

  /** The device with the early writes alone. */
  ghost function EarlyDevice(d: seq<Sector>, start: nat, early: seq<Update>): (e: seq<Sector>)
    requires Ring(d, start, []) && UpdatesOk(early, start, |d|)
    ensures |e| == |d| && Ring(e, start, []) && e[start] == d[start] && e == Home(d, start, early)
  {
    HomeWritesInRange(early, start, |d|);
    OutsideKeepsRing(d, start, [], HomeWrites(early));
    assert InJournal(start, start);
    Home(d, start, early)
  }

  lemma EarlyPart(d: seq<Sector>, start: nat, s: word, u: seq<Update>, m: nat, early: seq<Update>, zs: seq<Write>,
                  ws: seq<Write>)
    requires Ring(d, start, []) && |u| <= MAX_TXN && UpdatesOk(u, start, |d|) && UpdatesOk(early, start, |d|)
    requires m <= CommitPoint(d, start, s, u) && ws == TxnWrites(d, start, s, u) && m <= |ws| &&
      Shuffle(zs, ws[..m], HomeWrites(early))
    ensures InRange(ws, |d|) && InRange(zs, |d|) && Apply(d, zs) == Apply(EarlyDevice(d, start, early), ws[..m])
  {
    BeforeCommitInside(d, start, s, u, m);
    HomeWritesInRange(early, start, |d|);
    ShuffleApply(d, start, zs, ws[..m], HomeWrites(early));
  }

  /** So the device is the one that the transaction alone leaves from d with the early writes. */
  lemma EarlyRunApply(d: seq<Sector>, start: nat, s: word, u: seq<Update>, k: nat, early: seq<Update>, zs: seq<Write>,
                      run: seq<Write>,
                      ws: seq<Write>)
    requires Ring(d, start, []) && |u| <= MAX_TXN && UpdatesOk(u, start, |d|) &&
      EarlyRun(d, start, s, u, k, early, zs, run)
    requires ws == TxnWrites(d, start, s, u)
    ensures InRange(ws, |d|) && InRange(run, |d|) && Apply(d, run) == Apply(EarlyDevice(d, start, early), ws[..k])
  {
    var e, n := EarlyDevice(d, start, early), CommitPoint(d, start, s, u);
    EarlyPart(d, start, s, u, if k < n then k else n, early, zs, ws);
    if k >= n { RunOn(d, e, zs, ws, n, k); }
  }

  lemma {:induction false} RunOn(d: seq<Sector>, e: seq<Sector>, zs: seq<Write>, ws: seq<Write>, n: nat, k: nat)
    requires |d| == |e| && n <= k <= |ws| && InRange(ws, |d|) && InRange(zs, |d|) && Apply(d, zs) == Apply(e, ws[..n])
    ensures InRange(zs + ws[n..k], |d|) && Apply(d, zs + ws[n..k]) == Apply(e, ws[..k])
  {
    ApplyConcat(d, zs, ws[n..k]);
    ApplyConcat(e, ws[..n], ws[n..k]);
    TakeMore(ws, n, k);
  }

  lemma TakeMore<T>(s: seq<T>, n: nat, k: nat)
    requires n <= k <= |s|
    ensures s[..k] == s[..n] + s[n..k]
  {
  }

  /** Whatever crash and whatever interrupted recoveries: before the commit the device is as before
      but for the early writes, after it the whole transaction is on top of them. */
  lemma EarlyWritesStay(d: seq<Sector>, start: nat, s: word, u: seq<Update>, k: nat, early: seq<Update>, zs: seq<Write>,
                        run: seq<Write>,
                        cuts: seq<nat>)
    requires Ring(d, start, []) && |u| <= MAX_TXN && UpdatesOk(u, start, |d|) &&
      EarlyRun(d, start, s, u, k, early, zs, run)
    ensures InRange(run, |d|)
    ensures var f := FullRecovery(Survive(Apply(d, run), start, cuts), start);
      var e := Home(d, start, early);
      && Ring(f, start, [])
      && Blocks(f, start) == Blocks(if k < CommitPoint(d, start, s, u) then e else Home(e, start, u), start)
  {
    var e, ws := EarlyDevice(d, start, early), TxnWrites(d, start, s, u);
    EarlyRunApply(d, start, s, u, k, early, zs, run, ws);
    TxnWritesSame(d, e, start, s, u);
    CrashAtomicity(e, start, s, u, k, cuts);
    assert FirstWrites(ws, k) == ws[..k];
    var f := FullRecovery(Survive(Apply(d, run), start, cuts), start);
    BlocksIff(f, if k < CommitPoint(d, start, s, u) then e else Home(e, start, u), start);
  }

  ghost predicate Names(u: seq<Update>, block: nat) {
    exists j :: 0 <= j < |u| && u[j].block == block
  }

  /** Every block of v is one of u. */
  ghost predicate Within(v: seq<Update>, u: seq<Update>) {
    forall i :: 0 <= i < |v| ==> Names(u, v[i].block)
  }

  /** Writing u over some of its own blocks gives the same as writing u alone. */
  lemma HomeOver(d: seq<Sector>, start: nat, v: seq<Update>, u: seq<Update>)
    requires UpdatesOk(u, start, |d|) && UpdatesOk(v, start, |d|) && Within(v, u)
    ensures Home(Home(d, start, v), start, u) == Home(d, start, u)
  {
    HomeWritesInRange(u, start, |d|);
    HomeWritesInRange(v, start, |d|);
    var e := Home(d, start, v);
    forall x: nat | x < |d| ensures Home(e, start, u)[x] == Home(d, start, u)[x] {
      if Touches(HomeWrites(v), x) {
        var i :| 0 <= i < |v| && HomeWrites(v)[i].lba == x;
        var j :| 0 <= j < |u| && u[j].block == v[i].block;
        assert HomeWrites(u)[j].lba == x;
      } else {
        ApplyFrame(d, HomeWrites(v), x);
      }
      ApplyAgree(e, d, HomeWrites(u), x);
    }
  }

  /** With early writes of its own blocks a transaction shows all old or all new blocks after a
      crash before its commit exactly if those writes alone do; after the commit, always new. */
  lemma EarlyOldOrNewIff(d: seq<Sector>, start: nat, s: word, u: seq<Update>, k: nat, early: seq<Update>,
                         zs: seq<Write>, run: seq<Write>,
                         cuts: seq<nat>)
    requires Ring(d, start, []) && |u| <= MAX_TXN && UpdatesOk(u, start, |d|) &&
      EarlyRun(d, start, s, u, k, early, zs, run)
    requires Within(early, u)
    ensures InRange(run, |d|)
    ensures var f := FullRecovery(Survive(Apply(d, run), start, cuts), start);
      if k < CommitPoint(d, start, s, u) then OldOrNew(f, d, start, u) <==> OldOrNew(Home(d, start, early), d, start, u)
      else Blocks(f, start) == Blocks(Home(d, start, u), start)
  {
    EarlyWritesStay(d, start, s, u, k, early, zs, run, cuts);
    HomeOver(d, start, early, u);
  }

  // ----- Every home write goes straight to the device -----

  /** Write i of a transaction that logs each block with the writes lw and at once writes it home
      with one of hw. */
  function ThroughAt(lw: seq<Write>, hw: seq<Write>, i: nat): Write
    requires |lw| == 3 * |hw| && i < 4 * |hw|
  {
    LogsBound(i, |hw|);
    if i % 4 < 3 then lw[Logs(i)] else hw[i / 4]
  }

  /** Of the first k writes, how many go to the journal; the others go home. */
  function Logs(k: nat): nat {
    3 * (k / 4) + k % 4
  }

  lemma LogsBound(k: nat, m: nat)
    requires k <= 4 * m
    ensures Logs(k) <= 3 * m && k / 4 <= m
    ensures k < 4 * m ==> k / 4 < m && (k % 4 < 3 ==> Logs(k) < 3 * m)
  {
  }

  lemma Fourths(k: nat)
    requires k > 0
    ensures if k % 4 == 0 then (k - 1) % 4 == 3 && k / 4 == (k - 1) / 4 + 1 && Logs(k) == Logs(k - 1)
      else (k - 1) % 4 < 3 && k / 4 == (k - 1) / 4 && Logs(k) == Logs(k - 1) + 1
  {
  }

  /** All of them, up to the commit. */
  function ThroughWrites(lw: seq<Write>, hw: seq<Write>): (zs: seq<Write>)
    requires |lw| == 3 * |hw|
    ensures |zs| == 4 * |hw| && forall i :: 0 <= i < |zs| ==> zs[i] == ThroughAt(lw, hw, i)
  {
    seq(4 * |hw|, i requires 0 <= i < 4 * |hw| => ThroughAt(lw, hw, i))
  }

  lemma TakeOneMore<T>(s: seq<T>, m: nat, n: nat)
    requires n == m + 1 <= |s|
    ensures s[..n] == s[..m] + [s[m]]
  {
  }

  lemma {:induction false} ThroughShuffle(lw: seq<Write>, hw: seq<Write>, k: nat)
    requires |lw| == 3 * |hw| && k <= 4 * |hw|
    ensures Logs(k) <= |lw| && k / 4 <= |hw| && Shuffle(ThroughWrites(lw, hw)[..k], lw[..Logs(k)], hw[..k / 4])
  {
    LogsBound(k, |hw|);
    if k > 0 {
      var zs, n := ThroughWrites(lw, hw), k - 1;
      ThroughShuffle(lw, hw, n);
      Fourths(k);
      assert zs[n] == ThroughAt(lw, hw, n);
      ShuffleStep(zs, lw, hw, n, k, Logs(n), Logs(k), n / 4, k / 4);
    }
  }

  lemma ShuffleStep(zs: seq<Write>, lw: seq<Write>, hw: seq<Write>, n: nat, k: nat, a: nat, a': nat, b: nat, b': nat)
    requires k == n + 1 <= |zs| && a <= a' <= |lw| && b <= b' <= |hw| && Shuffle(zs[..n], lw[..a], hw[..b])
    requires (a' == a + 1 && b' == b && zs[n] == lw[a]) || (a' == a && b' == b + 1 && zs[n] == hw[b])
    ensures Shuffle(zs[..k], lw[..a'], hw[..b'])
  {
    TakeOneMore(zs, n, k);
    if b' == b {
      TakeOneMore(lw, a, a');
      ShuffleOn(zs[..n], lw[..a], hw[..b], [zs[n]]);
    } else {
      TakeOneMore(hw, b, b');
      ShuffleHome(zs[..n], lw[..a], hw[..b], zs[n]);
    }
  }

  /** All sector writes of such a transaction. */
  function AllThrough(d: seq<Sector>, start: nat, s: word, u: seq<Update>): seq<Write>
    requires Ring(d, start, []) && |u| <= MAX_TXN
  {
    ThroughWrites(LogAll(d, start, s, u), HomeWrites(u)) + TxnWrites(d, start, s, u)[3 * |u|..]
  }

  /** How many blocks are home after k writes. */
  function HomeSoFar(u: seq<Update>, k: nat): (n: nat)
    ensures n <= |u|
  {
    if k < 4 * |u| then k / 4 else |u|
  }

  lemma HomeTake(u: seq<Update>, n: nat)
    requires n <= |u|
    ensures HomeWrites(u[..n]) == HomeWrites(u)[..n]
  {
  }

  lemma WithinItself(u: seq<Update>)
    ensures Within(u, u)
  {
    forall i | 0 <= i < |u| ensures Names(u, u[i].block) {
      var j := i;
      assert 0 <= j < |u| && u[j].block == u[i].block;
    }
  }

  lemma {:induction false} TxnStarts(d: seq<Sector>, start: nat, s: word, u: seq<Update>, ws: seq<Write>)
    requires Ring(d, start, []) && |u| <= MAX_TXN && UpdatesOk(u, start, |d|) && ws == TxnWrites(d, start, s, u)
    ensures InRange(ws, |d|) && CommitPoint(d, start, s, u) == 3 * |u| + 2 <= |ws| &&
      ws[..3 * |u|] == LogAll(d, start, s, u)
  {
    BatchDone(d, start, s, u);
    SlicePrefixes(LogAll(d, start, s, u), CommitWrites(AfterLog(d, start, s, u), start, s),
      CheckpointWrites(AfterCommit(d, start, s, u), start, Entries(u, s) + [Entry.Commit(s)]));
  }

  lemma SlicePrefixes<T>(a: seq<T>, b: seq<T>, c: seq<T>)
    ensures (a + b + c)[..|a|] == a && (a + b + c)[|a|..] == b + c
  {
  }

  /** A crash while logging: some blocks have been logged and some of these are home. */
  lemma ThroughInLog(lw: seq<Write>, hw: seq<Write>, ws: seq<Write>, k: nat)
    requires |lw| == 3 * |hw| <= |ws| && ws[..3 * |hw|] == lw && k <= 4 * |hw|
    ensures Logs(k) <= |lw| && k / 4 <= |hw|
    ensures Shuffle((ThroughWrites(lw, hw) + ws[3 * |hw|..])[..k], ws[..Logs(k)], hw[..k / 4])
  {
    ThroughShuffle(lw, hw, k);
    assert (ThroughWrites(lw, hw) + ws[3 * |hw|..])[..k] == ThroughWrites(lw, hw)[..k];
    assert ws[..Logs(k)] == lw[..Logs(k)];
  }

  lemma AllShuffled(lw: seq<Write>, hw: seq<Write>)
    requires |lw| == 3 * |hw|
    ensures Shuffle(ThroughWrites(lw, hw), lw, hw)
  {
    var th, k := ThroughWrites(lw, hw), 4 * |hw|;
    ThroughShuffle(lw, hw, k);
    assert k / 4 == |hw| && Logs(k) == |lw|;
    assert th[..k] == th && lw[..|lw|] == lw && hw[..|hw|] == hw;
  }

  /** A crash later: every block is home. */
  lemma ThroughLater(lw: seq<Write>, hw: seq<Write>, ws: seq<Write>, m: nat)
    requires |lw| == 3 * |hw| <= m <= |ws| && ws[..3 * |hw|] == lw
    ensures Shuffle(ThroughWrites(lw, hw) + ws[3 * |hw|..m], ws[..m], hw)
  {
    var th, b := ThroughWrites(lw, hw), 3 * |hw|;
    AllShuffled(lw, hw);
    ShuffleOn(th, lw, hw, ws[b..m]);
    TakeMore(ws, b, m);
  }

  lemma TailTake<T>(th: seq<T>, ws: seq<T>, b: nat, n: nat, own: nat, k: nat)
    requires b <= own <= |ws| && k == |th| + own - b
    ensures (th + ws[b..])[..k] == th + ws[b..own]
    ensures b <= n <= own ==> th + ws[b..own] == th + ws[b..n] + ws[n..own]
  {
  }

  /** What the first k writes are, and of which transaction with which early writes. */
  lemma ThroughRun(d: seq<Sector>, start: nat, s: word, u: seq<Update>, k: nat, own: nat) returns (zs: seq<Write>)
    requires Ring(d, start, []) && |u| <= MAX_TXN && UpdatesOk(u, start, |d|) && k <= |AllThrough(d, start, s, u)|
    requires own == if k <= 4 * |u| then Logs(k) else k - |u|
    ensures EarlyRun(d, start, s, u, own, u[..HomeSoFar(u, k)], zs, AllThrough(d, start, s, u)[..k])
  {
    TxnStarts(d, start, s, u, TxnWrites(d, start, s, u));
    HomeTake(u, HomeSoFar(u, k));
    if k <= 4 * |u| {
      zs := AllThrough(d, start, s, u)[..k];
      RunInLog(d, start, s, u, k);
    } else {
      zs := RunLater(d, start, s, u, k, own);
    }
  }

  lemma RunInLog(d: seq<Sector>, start: nat, s: word, u: seq<Update>, k: nat)
    requires Ring(d, start, []) && |u| <= MAX_TXN && UpdatesOk(u, start, |d|) &&
      k <= 4 * |u| <= |AllThrough(d, start, s, u)|
    ensures var zs := AllThrough(d, start, s, u)[..k]; EarlyRun(d, start, s, u, Logs(k), u[..HomeSoFar(u, k)], zs, zs)
  {
    var lw, hw, ws := LogAll(d, start, s, u), HomeWrites(u), TxnWrites(d, start, s, u);
    TxnStarts(d, start, s, u, ws);
    StillLogging(u, k);
    HomeTake(u, k / 4);
    ThroughInLog(lw, hw, ws, k);
    EarlyByLog(d, start, s, u, Logs(k), u[..k / 4], AllThrough(d, start, s, u)[..k], ws);
  }

  lemma EarlyByLog(d: seq<Sector>, start: nat, s: word, u: seq<Update>, own: nat, early: seq<Update>, zs: seq<Write>,
                   ws: seq<Write>)
    requires Ring(d, start, []) && |u| <= MAX_TXN && UpdatesOk(u, start, |d|) && UpdatesOk(early, start, |d|)
    requires ws == TxnWrites(d, start, s, u) && own <= 3 * |u| <= |ws| && Shuffle(zs, ws[..own], HomeWrites(early))
    ensures EarlyRun(d, start, s, u, own, early, zs, zs)
  {
  }

  lemma StillLogging(u: seq<Update>, k: nat)
    requires k <= 4 * |u|
    ensures Logs(k) <= 3 * |u| && HomeSoFar(u, k) == k / 4
  {
    LogsBound(k, |u|);
  }

  lemma RunLater(d: seq<Sector>, start: nat, s: word, u: seq<Update>, k: nat, own: nat) returns (zs: seq<Write>)
    requires Ring(d, start, []) && |u| <= MAX_TXN && UpdatesOk(u, start, |d|) &&
      4 * |u| < k <= |AllThrough(d, start, s, u)|
    requires own == k - |u|
    ensures EarlyRun(d, start, s, u, own, u[..HomeSoFar(u, k)], zs, AllThrough(d, start, s, u)[..k])
  {
    var lw, hw, ws, n := LogAll(d, start, s, u), HomeWrites(u), TxnWrites(d, start, s, u), CommitPoint(d, start, s, u);
    TxnStarts(d, start, s, u, ws);
    assert u[..HomeSoFar(u, k)] == u;
    var m := if own < n then own else n;
    ThroughLater(lw, hw, ws, m);
    TailTake(ThroughWrites(lw, hw), ws, 3 * |u|, m, own, k);
    zs := ThroughWrites(lw, hw) + ws[3 * |u|..m];
  }

  /** The device once the last recovery has run. */
  ghost function ThroughOutcome(d: seq<Sector>, start: nat, s: word, u: seq<Update>, k: nat,
                                cuts: seq<nat>): seq<Sector>
    requires Ring(d, start, []) && |u| <= MAX_TXN && UpdatesOk(u, start, |d|)
  {
    AllThroughInRange(d, start, s, u);
    FullRecovery(Survive(Apply(d, FirstWrites(AllThrough(d, start, s, u), k)), start, cuts), start)
  }

  lemma AllThroughInRange(d: seq<Sector>, start: nat, s: word, u: seq<Update>)
    requires Ring(d, start, []) && |u| <= MAX_TXN && UpdatesOk(u, start, |d|)
    ensures InRange(AllThrough(d, start, s, u), |d|)
  {
    TxnStarts(d, start, s, u, TxnWrites(d, start, s, u));
    HomeWritesInRange(u, start, |d|);
    ThroughInRange(LogAll(d, start, s, u), HomeWrites(u), |d|);
  }

  lemma ThroughInRange(lw: seq<Write>, hw: seq<Write>, size: nat)
    requires |lw| == 3 * |hw| && InRange(lw, size) && InRange(hw, size)
    ensures InRange(ThroughWrites(lw, hw), size)
  {
  }

  /** After the commit u is written over its own blocks, whatever of it was home. */
  lemma OverPart(d: seq<Sector>, start: nat, u: seq<Update>, n: nat)
    requires UpdatesOk(u, start, |d|) && n == |u|
    ensures UpdatesOk(u[..n], start, |d|) && Home(Home(d, start, u[..n]), start, u) == Home(d, start, u[..n])
  {
    WithinItself(u);
    assert u[..n] == u;
    HomeOver(d, start, u, u);
  }

  /** With home writes straight to the device, a crash leaves exactly the blocks written home so
      far, in their new state: the journal adds nothing and takes nothing back. */
  lemma ThroughCrash(d: seq<Sector>, start: nat, s: word, u: seq<Update>, k: nat, cuts: seq<nat>)
    requires Ring(d, start, []) && |u| <= MAX_TXN && UpdatesOk(u, start, |d|)
    ensures Ring(ThroughOutcome(d, start, s, u, k, cuts), start, [])
    ensures Blocks(ThroughOutcome(d, start, s, u, k, cuts), start) ==
      Blocks(Home(d, start, u[..HomeSoFar(u, k)]), start)
  {
    var all := AllThrough(d, start, s, u);
    var m := if k <= |all| then k else |all|;
    assert FirstWrites(all, k) == all[..m];
    var own := if m <= 4 * |u| then Logs(m) else m - |u|;
    var early := u[..HomeSoFar(u, m)];
    var zs := ThroughRun(d, start, s, u, m, own);
    EarlyWritesStay(d, start, s, u, own, early, zs, all[..m], cuts);
    assert early == u[..HomeSoFar(u, k)];
    if own >= CommitPoint(d, start, s, u) { OverPart(d, start, u, HomeSoFar(u, m)); }
  }

  ghost predicate ThroughAtomic(d: seq<Sector>, start: nat, s: word, u: seq<Update>)
    requires Ring(d, start, []) && |u| <= MAX_TXN && UpdatesOk(u, start, |d|)
  {
    forall k: nat, cuts: seq<nat> :: OldOrNew(ThroughOutcome(d, start, s, u, k, cuts), d, start, u)
  }

  /** The first i blocks alone make no difference, or all the difference there is. */
  ghost predicate PartHarmless(d: seq<Sector>, start: nat, u: seq<Update>, i: nat)
    requires UpdatesOk(u, start, |d|) && i <= |u|
  {
    OldOrNew(Home(d, start, u[..i]), d, start, u)
  }

  lemma PartReached(d: seq<Sector>, start: nat, s: word, u: seq<Update>, i: nat)
    requires Ring(d, start, []) && |u| <= MAX_TXN && UpdatesOk(u, start, |d|) && i <= |u| &&
      ThroughAtomic(d, start, s, u)
    ensures PartHarmless(d, start, u, i)
  {
    var k := 4 * i;
    assert HomeSoFar(u, k) == i;
    ThroughCrash(d, start, s, u, k, []);
    assert OldOrNew(ThroughOutcome(d, start, s, u, k, []), d, start, u);
  }

  lemma AtomicIfParts(d: seq<Sector>, start: nat, s: word, u: seq<Update>, k: nat, cuts: seq<nat>)
    requires Ring(d, start, []) && |u| <= MAX_TXN && UpdatesOk(u, start, |d|)
    requires forall i: nat :: i <= |u| ==> PartHarmless(d, start, u, i)
    ensures OldOrNew(ThroughOutcome(d, start, s, u, k, cuts), d, start, u)
  {
    ThroughCrash(d, start, s, u, k, cuts);
    assert PartHarmless(d, start, u, HomeSoFar(u, k));
  }

  /** Such a transaction is crash atomic exactly if no first part of its blocks shows. */
  lemma ThroughAtomicIff(d: seq<Sector>, start: nat, s: word, u: seq<Update>)
    requires Ring(d, start, []) && |u| <= MAX_TXN && UpdatesOk(u, start, |d|)
    ensures ThroughAtomic(d, start, s, u) <==> forall i: nat :: i <= |u| ==> PartHarmless(d, start, u, i)
  {
    if ThroughAtomic(d, start, s, u) {
      forall i: nat | i <= |u| ensures PartHarmless(d, start, u, i) { PartReached(d, start, s, u, i); }
    }
    if forall i: nat :: i <= |u| ==> PartHarmless(d, start, u, i) {
      forall k: nat, cuts: seq<nat> ensures OldOrNew(ThroughOutcome(d, start, s, u, k, cuts), d, start, u) {
        AtomicIfParts(d, start, s, u, k, cuts);
      }
    }
  }

  /** Two changed blocks are enough: a crash after the first is home shows it alone. */
  lemma TwoBlocksNotAtomic(s: word)
    ensures var d, u := FreshDevice(2), ChangeAll(2);
      Ring(d, 0, []) && UpdatesOk(u, 0, |d|) && Atomic(d, 0, u) && !ThroughAtomic(d, 0, s, u)
  {
    FreshOk(2);
    PartIsNeither(2, 1);
    ShortOpAtomic(FreshDevice(2), 0, ChangeAll(2));
    ThroughAtomicIff(FreshDevice(2), 0, s, ChangeAll(2));
    assert !PartHarmless(FreshDevice(2), 0, ChangeAll(2), 1);
  }

  // ----- The code issues these writes -----

  /** After n blocks: the device and the trace. */
  ghost predicate Through(d: seq<Sector>, t: seq<Write>, start: nat, s: word, u: seq<Update>, n: nat, d': seq<Sector>,
                          t': seq<Write>)
    requires Ring(d, start, []) && |u| <= MAX_TXN && UpdatesOk(u, start, |d|) && n <= |u|
  {
    && |d'| == |d| && d' == AfterLog(EarlyDevice(d, start, u[..n]), start, s, u[..n])
    && t' == t + ThroughWrites(LogAll(d, start, s, u), HomeWrites(u))[..4 * n]
  }

  /** The three writes of block n in the whole log. */
  predicate LogsAt(all: seq<Write>, lw: seq<Write>, n: nat) {
    3 * n + 3 <= |all| && all[3 * n..3 * n + 3] == lw
  }

  lemma LogsAtConcat(wi: seq<Write>, more: seq<Write>, lw: seq<Write>, n: nat)
    ensures LogsAt(wi, lw, n) ==> LogsAt(wi + more, lw, n)
    ensures |wi| == 3 * n && |more| == 3 ==> LogsAt(wi + more, more, n)
  {
    if 3 * n + 3 <= |wi| { assert (wi + more)[3 * n..3 * n + 3] == wi[3 * n..3 * n + 3]; }
  }

  /** How block n is logged after those before it. */
  function LogOf(d: seq<Sector>, start: nat, s: word, u: seq<Update>, n: nat): seq<Write>
    requires Ring(d, start, []) && n < |u| <= MAX_TXN
  {
    LogWrites(AfterLog(d, start, s, u[..n]), start, s, u[n].block, u[n].data)
  }

  lemma {:induction false} LogOfPrefix(d: seq<Sector>, start: nat, s: word, u: seq<Update>, n: nat, m: nat)
    requires Ring(d, start, []) && n < m <= |u| <= MAX_TXN
    ensures LogOf(d, start, s, u[..m], n) == LogOf(d, start, s, u, n)
  {
    SamePrefix(u, m, n);
  }

  lemma {:induction false} LogAllGrows(d: seq<Sector>, start: nat, s: word, u: seq<Update>, n: nat, m: nat)
    requires Ring(d, start, []) && m + 1 == |u| <= MAX_TXN && n <= m
    requires n < m ==> LogsAt(LogAll(d, start, s, u[..m]), LogOf(d, start, s, u, n), n)
    ensures LogsAt(LogAll(d, start, s, u), LogOf(d, start, s, u, n), n)
  {
    LogAllSnoc(d, start, s, u);
    LogsAtConcat(LogAll(d, start, s, u[..m]), LogOf(d, start, s, u, m), LogOf(d, start, s, u, n), n);
  }

  lemma {:induction false} LogAllAt(d: seq<Sector>, start: nat, s: word, u: seq<Update>, n: nat)
    requires Ring(d, start, []) && n < |u| <= MAX_TXN
    ensures LogsAt(LogAll(d, start, s, u), LogOf(d, start, s, u, n), n)
    decreases |u|
  {
    var m := |u| - 1;
    if n < m {
      LogAllAt(d, start, s, u[..m], n);
      LogOfPrefix(d, start, s, u, n, m);
    }
    LogAllGrows(d, start, s, u, n, m);
  }

  lemma LogWritesSame(c: seq<Sector>, e: seq<Sector>, start: nat, s: word, block: word, data: Sector)
    requires Layout(c, start) && Layout(e, start) && c[start] == e[start]
    ensures LogWrites(c, start, s, block, data) == LogWrites(e, start, s, block, data)
  {
  }

  /** With the first n blocks home, the next block is logged with the same writes. */
  lemma {:induction false} ThroughLogs(d: seq<Sector>, start: nat, s: word, u: seq<Update>, n: nat, e: seq<Sector>,
                                       c: seq<Sector>)
    requires Ring(d, start, []) && n < |u| <= MAX_TXN && Ring(e, start, []) && |d| == |e| && d[start] == e[start]
    requires c == AfterLog(e, start, s, u[..n])
    ensures LogWrites(c, start, s, u[n].block, u[n].data) == LogAll(d, start, s, u)[3 * n..3 * n + 3]
  {
    LogAllSame(d, e, start, s, u[..n]);
    LogAllAt(d, start, s, u, n);
    LogWritesSame(c, AfterLog(d, start, s, u[..n]), start, s, u[n].block, u[n].data);
  }

  /** The device after block n is logged and written home. */
  lemma {:induction false} ThroughDevice(d: seq<Sector>, start: nat, s: word, u: seq<Update>, n: nat, c: seq<Sector>,
                                         lw: seq<Write>)
    requires Ring(d, start, []) && n < |u| <= MAX_TXN && UpdatesOk(u, start, |d|)
    requires c == AfterLog(EarlyDevice(d, start, u[..n]), start, s, u[..n])
    requires Layout(c, start) && lw == LogWrites(c, start, s, u[n].block, u[n].data)
    ensures |c| == |d| && Ring(c, start, Entries(u[..n], s)) && InRange(lw, |c|)
    ensures Apply(c, lw)[u[n].block := u[n].data] == AfterLog(EarlyDevice(d, start, u[..n + 1]), start, s, u[..n + 1])
  {
    var e, f, v := EarlyDevice(d, start, u[..n]), EarlyDevice(d, start, u[..n + 1]), u[..n + 1];
    LogNext(e, start, s, u, n, []);
    LogAllSame(e, f, start, s, v);
    LogAllInside(e, start, s, v);
    HomeOneMore(d, start, u, n);
    ApplyCommutes(e, LogAll(e, start, s, v), Put(u[n].block, u[n].data));
  }

  lemma HomeOneMore(d: seq<Sector>, start: nat, u: seq<Update>, n: nat)
    requires UpdatesOk(u, start, |d|) && n < |u|
    ensures Home(d, start, u[..n + 1]) == Home(d, start, u[..n])[u[n].block := u[n].data]
  {
    HomeWritesInRange(u[..n], start, |d|);
    assert HomeWrites(u[..n + 1])[..n] == HomeWrites(u[..n]);
  }

  lemma ThroughTrace(zs: seq<Write>, lw: seq<Write>, hw: seq<Write>, n: nat, m: nat, next: nat, a: seq<Write>,
                     t: seq<Write>, t': seq<Write>)
    requires |lw| == 3 * |hw| && n < |hw| && zs == ThroughWrites(lw, hw) && m == 4 * n && next == m + 4 <= |zs|
    requires a == lw[3 * n..3 * n + 3] && t' == t + zs[..m]
    ensures t' + a + [hw[n]] == t + zs[..next]
  {
    FourAt(lw, hw, n);
    FourMore(zs, m, a, hw[n], t);
  }

  lemma FourMore(zs: seq<Write>, m: nat, a: seq<Write>, h: Write, t: seq<Write>)
    requires m + 4 <= |zs| && |a| == 3 && zs[m] == a[0] && zs[m + 1] == a[1] && zs[m + 2] == a[2] && zs[m + 3] == h
    ensures t + zs[..m] + a + [h] == t + zs[..m + 4]
  {
    assert zs[..m + 4] == zs[..m] + a + [h];
  }

  lemma Fours(n: nat, j: nat)
    requires j < 4
    ensures (4 * n + j) / 4 == n && (4 * n + j) % 4 == j && Logs(4 * n + j) == 3 * n + j
  {
  }

  lemma FourAt(lw: seq<Write>, hw: seq<Write>, n: nat)
    requires |lw| == 3 * |hw| && n < |hw|
    ensures var zs := ThroughWrites(lw, hw);
      zs[4 * n] == lw[3 * n] && zs[4 * n + 1] == lw[3 * n + 1] && zs[4 * n + 2] == lw[3 * n + 2] &&
        zs[4 * n + 3] == hw[n]
  {
    var zs, m := ThroughWrites(lw, hw), 4 * n;
    Fours(n, 0);
    Fours(n, 1);
    Fours(n, 2);
    Fours(n, 3);
    assert zs[m] == ThroughAt(lw, hw, m) && zs[m + 1] == ThroughAt(lw, hw, m + 1);
    assert zs[m + 2] == ThroughAt(lw, hw, m + 2) && zs[m + 3] == ThroughAt(lw, hw, m + 3);
  }

  method LogThrough(dev: BlockDev, start: nat, s: word, u: seq<Update>)
    requires Ring(dev.sectors, start, []) && |u| <= MAX_TXN && UpdatesOk(u, start, |dev.sectors|)
    modifies dev
    ensures Through(old(dev.sectors), old(dev.trace), start, s, u, |u|, dev.sectors, dev.trace)
  {
    ghost var d, t := dev.sectors, dev.trace;
    ThroughStart(d, t, start, s, u);
    for n := 0 to |u|
      invariant Through(d, t, start, s, u, n, dev.sectors, dev.trace)
    {
      BlockThrough(dev, start, s, u, n, n + 1, d, t);
    }
  }

  lemma ThroughStart(d: seq<Sector>, t: seq<Write>, start: nat, s: word, u: seq<Update>)
    requires Ring(d, start, []) && |u| <= MAX_TXN && UpdatesOk(u, start, |d|)
    ensures Through(d, t, start, s, u, 0, d, t)
  {
    assert u[..0] == [] && ThroughWrites(LogAll(d, start, s, u), HomeWrites(u))[..0] == [] && t + [] == t;
  }

  /** Log block n and write it home. */
  method BlockThrough(dev: BlockDev, start: nat, s: word, u: seq<Update>, n: nat, ghost next: nat, ghost d: seq<Sector>,
                      ghost t: seq<Write>)
    requires Ring(d, start, []) && n < |u| <= MAX_TXN && UpdatesOk(u, start, |d|) && next == n + 1
    requires Through(d, t, start, s, u, n, dev.sectors, dev.trace)
    modifies dev
    ensures Through(d, t, start, s, u, next, dev.sectors, dev.trace)
  {
    ThroughNext(d, t, start, s, u, n, next, dev.sectors, dev.trace);
    EntriesTotal(u[..n], s);
    var e := Log(dev, start, s, u[n].block, u[n].data, Entries(u[..n], s));
    dev.Write(u[n].block, u[n].data);
  }

  lemma {:induction false} ThroughNext(d: seq<Sector>, t: seq<Write>, start: nat, s: word, u: seq<Update>, n: nat,
                                       next: nat,
                                       c: seq<Sector>, t': seq<Write>)
    requires Ring(d, start, []) && n < |u| <= MAX_TXN && UpdatesOk(u, start, |d|) && next == n + 1
    requires Through(d, t, start, s, u, n, c, t')
    ensures |c| == |d| && Ring(c, start, Entries(u[..n], s))
    ensures var a := LogWrites(c, start, s, u[n].block, u[n].data);
      InRange(a, |c|) && Through(d, t, start, s, u, next, Apply(c, a)[u[n].block := u[n].data],
        t' + a + [Put(u[n].block, u[n].data)])
  {
    var lw, hw := LogAll(d, start, s, u), HomeWrites(u);
    var a := LogWrites(c, start, s, u[n].block, u[n].data);
    ThroughLogs(d, start, s, u, n, EarlyDevice(d, start, u[..n]), c);
    ThroughDevice(d, start, s, u, n, c, a);
    ThroughTrace(ThroughWrites(lw, hw), lw, hw, n, 4 * n, 4 * next, a, t, t');
  }

  lemma {:induction false} TxnRest(d: seq<Sector>, e: seq<Sector>, start: nat, s: word, u: seq<Update>)
    requires Ring(d, start, []) && Ring(e, start, []) && |d| == |e| && d[start] == e[start] && |u| <= MAX_TXN
    ensures TxnWrites(d, start, s, u)[3 * |u|..] == CommitWrites(AfterLog(e, start, s, u), start, s)
      + CheckpointWrites(AfterCommit(e, start, s, u), start, Entries(u, s) + [Entry.Commit(s)])
  {
    TxnWritesSame(d, e, start, s, u);
    SlicePrefixes(LogAll(e, start, s, u), CommitWrites(AfterLog(e, start, s, u), start, s),
      CheckpointWrites(AfterCommit(e, start, s, u), start, Entries(u, s) + [Entry.Commit(s)]));
  }

  /** Logging each block with journal_log and writing it home at once, then committing and
      checkpointing, traces exactly the writes the theorem quantifies over. */
  method RunThrough(dev: BlockDev, start: nat, s: word, u: seq<Update>)
    requires Ring(dev.sectors, start, []) && |u| <= MAX_TXN && UpdatesOk(u, start, |dev.sectors|)
    modifies dev
    ensures dev.trace == old(dev.trace) + AllThrough(old(dev.sectors), start, s, u)
  {
    ghost var d, t := dev.sectors, dev.trace;
    LogThrough(dev, start, s, u);
    ghost var th := ThroughWrites(LogAll(d, start, s, u), HomeWrites(u));
    assert th[..4 * |u|] == th && u[..|u|] == u;
    ghost var e := EarlyDevice(d, start, u);
    ghost var cw := CommitWrites(dev.sectors, start, s);
    EntriesTotal(u, s);
    var err := JournalOps.Commit(dev, start, s, Entries(u, s));
    assert dev.sectors == AfterCommit(e, start, s, u);
    ghost var kw := CheckpointWrites(dev.sectors, start, Entries(u, s) + [Entry.Commit(s)]);
    CommittedChecks(u, s, start, |d|);
    Checkpoint(dev, start, Entries(u, s) + [Entry.Commit(s)]);
    TxnRest(d, e, start, s, u);
    ConcatAssoc(t, th, cw);
    ConcatAssoc(t, th + cw, kw);
    ConcatAssoc(th, cw, kw);
  }
}
