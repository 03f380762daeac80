/** journal_init, journal_start_txn, journal_log, journal_commit, journal_checkpoint and
    journal_recover. Each method issues exactly the writes its specification lists, in
    order, and says what ring it leaves. `es` names the live entries of the ring. */
module JournalOps {
  import opened Device
  import opened Journal

  /** The ring after each of the three sector writes of a log. */
  lemma LogStates(d: seq<Sector>, start: nat, es: seq<Entry>, s: word, block: word, data: Sector)
    requires Ring(d, start, es) && Total(es) + 3 < JENT_COUNT
    ensures var ws := LogWrites(d, start, s, block, data);
      && InRange(ws, |d|)
      && var c1 := d[ws[0].lba := ws[0].data];
      && var c2 := c1[ws[1].lba := ws[1].data];
      && Ring(c1, start, es) && Ring(c2, start, es)
      && Ring(c2[ws[2].lba := ws[2].data], start, es + [Data(s, block, data)])
  {
    var head, tail := Head(d, start), Tail(d, start);
    var off := Total(es);
    AdvAdv(head, off, 1);
    AdvAdv(head, off, 2);
    AdvInjective(head, off, off + 1);
    var c1 := d[SlotLba(start, tail) := DataDesc(s, block)];
    FreeSlotWrite(d, start, es, off, DataDesc(s, block));
    var c2 := c1[SlotLba(start, Adv(tail, 1)) := data];
    FreeSlotWrite(c1, start, es, off + 1, data);
    var jsb := d[start][TAIL := Adv(tail, 2)];
    SealedOk(jsb);
    ParseDescriptors(s, block);
    PublishTail(c2, start, es, Data(s, block, data), Sealed(jsb));
  }

  /** At every crash point of a log the old ring is live, until the superblock write adds the entry. */
  lemma LogCrash(d: seq<Sector>, start: nat, es: seq<Entry>, s: word, block: word, data: Sector, k: nat)
    requires Ring(d, start, es) && Total(es) + 3 < JENT_COUNT && k <= 3
    ensures InRange(LogWrites(d, start, s, block, data), |d|)
    ensures var c := Apply(d, LogWrites(d, start, s, block, data)[..k]);
      SameTargets(c, d, start) && Ring(c, start, if k < 3 then es else es + [Data(s, block, data)])
  {
    var ws := LogWrites(d, start, s, block, data);
    LogStates(d, start, es, s, block, data);
    assert Apply(d, ws[..0]) == d;
    ApplyStep(d, ws, 0);
    ApplyStep(d, ws, 1);
    ApplyStep(d, ws, 2);
  }

  /** At every crash point of a commit the transaction is uncommitted, until the superblock write. */
  lemma CommitCrash(d: seq<Sector>, start: nat, es: seq<Entry>, s: word, k: nat)
    requires Ring(d, start, es) && Total(es) + 1 < JENT_COUNT && k <= 2
    ensures InRange(CommitWrites(d, start, s), |d|)
    ensures var c := Apply(d, CommitWrites(d, start, s)[..k]);
      SameTargets(c, d, start) && Ring(c, start, if k < 2 then es else es + [Entry.Commit(s)])
  {
    var ws := CommitWrites(d, start, s);
    assert InRange(ws, |d|);
    assert Apply(d, ws[..0]) == d;
    if k > 0 {
      ApplyStep(d, ws, 0);
      FreeSlotWrite(d, start, es, Total(es), CommitDesc(s));
      if k > 1 {
        ApplyStep(d, ws, 1);
        SealedOk(d[start][TAIL := Adv(Tail(d, start), 1)][SEQ := NextSeq(s)]);
        ParseDescriptors(s, 0);
        PublishTail(Apply(d, ws[..1]), start, es, Entry.Commit(s), ws[1].data);
      }
    }
  }

  lemma TwoWrites(d: seq<Sector>, ws: seq<Write>)
    requires InRange(ws, |d|) && |ws| == 2
    ensures ws[..2] == ws && Apply(d, ws) == d[ws[0].lba := ws[0].data][ws[1].lba := ws[1].data]
  {
    ApplyStep(d, ws, 0);
    ApplyStep(d, ws, 1);
    assert ws[..0] == [] && ws[..2] == ws;
  }

  lemma ThreeWrites(d: seq<Sector>, ws: seq<Write>)
    requires InRange(ws, |d|) && |ws| == 3
    ensures ws[..3] == ws
    ensures Apply(d, ws) == d[ws[0].lba := ws[0].data][ws[1].lba := ws[1].data][ws[2].lba := ws[2].data]
  {
    TwoWrites(d, ws[..2]);
    ApplyStep(d, ws, 2);
    assert ws[..3] == ws;
  }

  method Init(dev: BlockDev, start: nat)
    requires Layout(dev.sectors, start)
    modifies dev
    ensures Ring(dev.sectors, start, []) && dev.sectors[start][SEQ] == 1
    ensures SameTargets(dev.sectors, old(dev.sectors), start)
  {
    var raw: Sector := ZeroSector()[MAGIC := JOURNAL_MAGIC][SEQ := 1][HEAD := 0][TAIL := 0];
    SealedOk(raw);
    var jsb := Seal(raw);
    dev.Write(start, jsb);
  }

  method StartTxn(dev: BlockDev, start: nat) returns (s: word)
    requires Layout(dev.sectors, start)
    ensures s == dev.sectors[start][SEQ]
  {
    var jsb := dev.Read(start);
    s := jsb[SEQ];
  }

  method Log(dev: BlockDev, start: nat, s: word, block: word, data: Sector, ghost es: seq<Entry>)
    returns (e: Err)
    requires Ring(dev.sectors, start, es)
    modifies dev
    ensures e == NoSpace <==> Total(es) + 3 >= JENT_COUNT
    ensures e == NoSpace ==> dev.sectors == old(dev.sectors) && dev.trace == old(dev.trace)
    ensures e == Ok ==>
      var ws := LogWrites(old(dev.sectors), start, s, block, data);
      && InRange(ws, |old(dev.sectors)|)
      && dev.trace == old(dev.trace) + ws && dev.sectors == Apply(old(dev.sectors), ws)
      && Ring(dev.sectors, start, es + [Data(s, block, data)])
      && SameTargets(dev.sectors, old(dev.sectors), start)
      && dev.sectors[start][SEQ] == old(dev.sectors)[start][SEQ]
  {
    ghost var d := dev.sectors;
    var jsb := dev.Read(start);
    SpaceIsFree(d, start, es);
    if Space(jsb[HEAD], jsb[TAIL]) < 3 { return NoSpace; }
    ghost var ws := LogWrites(d, start, s, block, data);
    assert InRange(ws, |d|) && ws[..3] == ws by { LogStates(d, start, es, s, block, data); }
    NextIsAdv(jsb[TAIL]);

    var de := Seal(ZeroSector()[TYPE := JENT_DATA][SEQ := s][BLOCK := block]);
    var slot := jsb[TAIL];
    dev.Write(SlotLba(start, slot), de);
    dev.Write(SlotLba(start, Next(slot)), data);
    jsb := Seal(jsb[TAIL := Next(Next(slot))]);
    dev.Write(start, jsb);
    assert dev.trace == old(dev.trace) + ws;
    assert dev.sectors == Apply(d, ws) by { ThreeWrites(d, ws); }
    LogCrash(d, start, es, s, block, data, 3);
    return Ok;
  }

  method Commit(dev: BlockDev, start: nat, s: word, ghost es: seq<Entry>) returns (e: Err)
    requires Ring(dev.sectors, start, es)
    modifies dev
    ensures e == NoSpace <==> Total(es) + 1 >= JENT_COUNT
    ensures e == NoSpace ==> dev.sectors == old(dev.sectors) && dev.trace == old(dev.trace)
    ensures e == Ok ==>
      var ws := CommitWrites(old(dev.sectors), start, s);
      && InRange(ws, |old(dev.sectors)|)
      && dev.trace == old(dev.trace) + ws && dev.sectors == Apply(old(dev.sectors), ws)
      && Ring(dev.sectors, start, es + [Entry.Commit(s)])
      && SameTargets(dev.sectors, old(dev.sectors), start)
      && dev.sectors[start][SEQ] == NextSeq(s)
  {
    ghost var d := dev.sectors;
    var jsb := dev.Read(start);
    SpaceIsFree(d, start, es);
    if Space(jsb[HEAD], jsb[TAIL]) < 1 { return NoSpace; }
    ghost var ws := CommitWrites(d, start, s);
    NextSeqWraps(s);
    assert InRange(ws, |d|) && ws[..2] == ws;
    NextIsAdv(jsb[TAIL]);

    var ce := Seal(ZeroSector()[TYPE := JENT_COMMIT][SEQ := s]);
    var slot := jsb[TAIL];
    dev.Write(SlotLba(start, slot), ce);
    var bumped := (s + 1) % WORD_LIMIT;
    jsb := Seal(jsb[TAIL := Next(slot)][SEQ := bumped]);
    dev.Write(start, jsb);
    assert dev.trace == old(dev.trace) + ws;
    assert dev.sectors == Apply(d, ws) by { TwoWrites(d, ws); }
    CommitCrash(d, start, es, s, 2);
    return Ok;
  }

  // ----- Walking the ring -----

  lemma EntryStep(d: seq<Sector>, start: nat, es: seq<Entry>, j: nat)
    requires Ring(d, start, es) && j < |es|
    ensures EntrySlot(d, start, es, j) < JENT_COUNT && EntrySlot(d, start, es, j + 1) < JENT_COUNT
    ensures EntrySlot(d, start, es, j + 1) == Adv(EntrySlot(d, start, es, j), Width(es[j]))
    ensures EntrySlot(d, start, es, j) != Tail(d, start)
  {
    TotalSlice(es, j);
    AdvAdv(Head(d, start), Total(es[..j]), Width(es[j]));
    AdvInjective(Head(d, start), Total(es[..j]), Total(es));
  }

  lemma EntrySlotEnds(d: seq<Sector>, start: nat, es: seq<Entry>, n: nat)
    requires Ring(d, start, es) && n <= |es|
    ensures EntrySlot(d, start, es, n) < JENT_COUNT
    ensures EntrySlot(d, start, es, 0) == Head(d, start)
    ensures EntrySlot(d, start, es, |es|) == Tail(d, start)
    ensures n > 0 ==> EntrySlot(d, start, es, n) != Head(d, start)
  {
    assert es[..0] == [] && es[..|es|] == es;
    TotalBound(es, n);
    if n > 0 {
      TotalSlice(es, n - 1);
      AdvInjective(Head(d, start), 0, Total(es[..n]));
    }
  }

  lemma EntrySlotInjective(d: seq<Sector>, start: nat, es: seq<Entry>, m: nat, n: nat)
    requires Ring(d, start, es) && m < n <= |es|
    ensures EntrySlot(d, start, es, m) != EntrySlot(d, start, es, n)
    ensures es[m].Data? ==> Adv(EntrySlot(d, start, es, m), 1) != EntrySlot(d, start, es, n)
    ensures EntrySlot(d, start, es, m) < JENT_COUNT && EntrySlot(d, start, es, n) < JENT_COUNT
  {
    TotalSlice(es, m);
    TotalMono(es, m + 1, n);
    AdvInjective(Head(d, start), Total(es[..m]), Total(es[..n]));
    if es[m].Data? {
      AdvAdv(Head(d, start), Total(es[..m]), 1);
      AdvInjective(Head(d, start), Total(es[..m]) + 1, Total(es[..n]));
    }
  }

  lemma {:induction false} TotalMono(es: seq<Entry>, m: nat, n: nat)
    requires m <= n <= |es|
    ensures Total(es[..m]) <= Total(es[..n]) <= Total(es)
    decreases n - m
  {
    TotalBound(es, n);
    if m < n {
      TotalSlice(es, m);
      TotalMono(es, m + 1, n);
    }
  }

  lemma CommitEndStep(es: seq<Entry>, j: nat)
    requires j < |es|
    ensures CommitEnd(es[..j + 1]) == if es[j].Commit? then j + 1 else CommitEnd(es[..j])
  {
    assert es[..j + 1][..j] == es[..j];
  }

  lemma DataWritesStep(es: seq<Entry>, j: nat)
    requires j < |es|
    ensures DataWrites(es[..j + 1]) ==
      if es[j].Data? then DataWrites(es[..j]) + [Put(es[j].block, es[j].payload)] else DataWrites(es[..j])
  {
    assert es[..j + 1][..j] == es[..j];
  }

  lemma MatchingWritesStep(es: seq<Entry>, s: word, j: nat)
    requires j < |es|
    ensures MatchingWrites(es[..j + 1], s) ==
      if es[j].Data? && es[j].s == s then MatchingWrites(es[..j], s) + [Put(es[j].block, es[j].payload)]
      else MatchingWrites(es[..j], s)
  {
    assert es[..j + 1][..j] == es[..j];
  }

  lemma MatchingAppend(ws: seq<Write>, es: seq<Entry>, s: word, j: nat)
    requires j < |es|
    ensures var matches := es[j].Data? && es[j].s == s;
      && ws + MatchingWrites(es[..j + 1], s) ==
        (if matches then ws + MatchingWrites(es[..j], s) + [Put(es[j].block, es[j].payload)]
          else ws + MatchingWrites(es[..j], s))
      && |MatchingWrites(es[..j + 1], s)| == |MatchingWrites(es[..j], s)| + (if matches then 1 else 0)
  {
    MatchingWritesStep(es, s, j);
  }

  lemma ReplayWritesStep(es: seq<Entry>, j: nat)
    requires j < |es|
    ensures ReplayWrites(es[..j + 1]) ==
      if es[j].Commit? then ReplayWrites(es[..j]) + MatchingWrites(es[..j], es[j].s) else ReplayWrites(es[..j])
  {
    assert es[..j + 1][..j] == es[..j];
  }

  /** At every crash point of a checkpoint the whole ring is still live, until the superblock
      write drops the committed prefix and keeps the uncommitted suffix. */
  lemma CheckpointCrash(d: seq<Sector>, start: nat, es: seq<Entry>, k: nat)
    requires Ring(d, start, es) && TargetsOk(es, start, |d|)
    requires k <= |CheckpointWrites(d, start, es)|
    ensures InRange(CheckpointWrites(d, start, es), |d|)
    ensures var ws := CheckpointWrites(d, start, es);
      var n := CommitEnd(es);
      var c := Apply(d, ws[..k]);
      if k < |ws| then
        Ring(c, start, es) && k <= |DataWrites(es[..n])| && ws[..k] == DataWrites(es[..n])[..k]
      else
        && Ring(c, start, es[n..]) && InRange(DataWrites(es[..n]), |d|)
        && SameTargets(c, Apply(d, DataWrites(es[..n])), start)
  {
    var n := CommitEnd(es);
    var ws := CheckpointWrites(d, start, es);
    if n == 0 {
      assert es[..0] == [] && es[0..] == es;
    } else {
      var dw := DataWrites(es[..n]);
      DataWritesOutside(es[..n], start, |d|);
      assert InRange(ws, |d|);
      if k < |ws| {
        assert ws[..k] == dw[..k];
        OutsideKeepsRing(d, start, es, dw[..k]);
      } else {
        assert ws[..k] == ws;
        CheckpointEnds(d, start, es, n, dw, ws);
      }
    }
  }

  lemma CheckpointEnds(d: seq<Sector>, start: nat, es: seq<Entry>, n: nat, dw: seq<Write>, ws: seq<Write>)
    requires Ring(d, start, es) && TargetsOk(es, start, |d|) && 0 < n == CommitEnd(es)
    requires dw == DataWrites(es[..n]) && Outside(dw, start, |d|) && ws == CheckpointWrites(d, start, es) &&
      InRange(ws, |d|)
    ensures Ring(Apply(d, ws), start, es[n..]) && InRange(dw, |d|) && SameTargets(Apply(d, ws), Apply(d, dw), start)
  {
    EntrySlotEnds(d, start, es, n);
    var jsb := d[start][HEAD := EntrySlot(d, start, es, n)];
    SealedOk(jsb);
    OutsideKeepsRing(d, start, es, dw);
    assert ws == dw + [Put(start, Sealed(jsb))];
    ApplySnoc(d, dw, Put(start, Sealed(jsb)));
    PublishHead(Apply(d, dw), start, es, n, Sealed(jsb));
  }

  /** What reading the slot of entry j shows, and where the stride from it lands. */
  lemma ReadEntry(d: seq<Sector>, start: nat, es: seq<Entry>, j: nat)
    requires Ring(d, start, es) && j < |es|
    ensures var at := EntrySlot(d, start, es, j);
      && at < JENT_COUNT && at != Tail(d, start)
      && var buf := d[SlotLba(start, at)];
      && ChecksumOk(buf) && buf[SEQ] == es[j].s
      && buf[TYPE] == (if es[j].Data? then JENT_DATA else JENT_COMMIT)
      && EntrySlot(d, start, es, j + 1) == (if es[j].Data? then Next(Next(at)) else Next(at))
      && (es[j].Data? ==>
        buf[BLOCK] == es[j].block && Next(at) < JENT_COUNT && d[SlotLba(start, Next(at))] == es[j].payload)
  {
    EntryStep(d, start, es, j);
    var at := EntrySlot(d, start, es, j);
    NextIsAdv(at);
    assert EntryAt(d, start, at, es[j]);
  }

  /** Pass 1 of a checkpoint. The slots it parses are the descriptors of the live entries, in
      order, and so never a payload. */
  method FindLastCommit(dev: BlockDev, start: nat, head: word, tail: word, ghost es: seq<Entry>)
    returns (last: word, ghost parsed: seq<nat>)
    requires Ring(dev.sectors, start, es)
    requires head == Head(dev.sectors, start) && tail == Tail(dev.sectors, start)
    ensures last == EntrySlot(dev.sectors, start, es, CommitEnd(es))
    ensures |parsed| == |es| && forall k :: 0 <= k < |es| ==> parsed[k] == EntrySlot(dev.sectors, start, es, k)
  {
    ghost var d := dev.sectors;
    var scan: nat, end: nat := head, head;
    ghost var j := 0;
    parsed := [];
    EntrySlotEnds(d, start, es, 0);
    assert es[..0] == [];
    while scan != tail
      invariant j <= |es| && scan == EntrySlot(d, start, es, j) && |parsed| == j
      invariant forall k :: 0 <= k < j ==> parsed[k] == EntrySlot(d, start, es, k)
      invariant end == EntrySlot(d, start, es, CommitEnd(es[..j]))
      decreases |es| - j
    {
      ReadEntry(d, start, es, j);
      CommitEndStep(es, j);
      var buf := dev.Read(SlotLba(start, scan));
      parsed := parsed + [scan];
      if buf[TYPE] == JENT_COMMIT {
        end := Next(scan);
      }
      if buf[TYPE] == JENT_DATA {
        scan := Next(Next(scan));
      } else {
        scan := Next(scan);
      }
      j := j + 1;
    }
    if j < |es| { ReadEntry(d, start, es, j); }
    assert es[..j] == es;
    EntrySlotEnds(d, start, es, CommitEnd(es));
    last := end;
  }

  /** Replay in progress: starting from device d0 with trace t0, `ws` have been written home. */
  ghost predicate Replaying(dev: BlockDev, d0: seq<Sector>, t0: seq<Write>, start: nat, ws: seq<Write>)
    reads dev
  {
    && Layout(d0, start) && Outside(ws, start, |d0|)
    && InRange(ws, |d0|) && dev.sectors == Apply(d0, ws) && dev.trace == t0 + ws
  }

  method ReadSlot(dev: BlockDev, ghost d0: seq<Sector>, ghost t0: seq<Write>, start: nat, at: nat, ghost ws: seq<Write>)
    returns (buf: Sector)
    requires Replaying(dev, d0, t0, start, ws) && at < JENT_COUNT
    ensures buf == d0[SlotLba(start, at)]
  {
    ApplyFrame(d0, ws, SlotLba(start, at));
    buf := dev.Read(SlotLba(start, at));
  }

  method WriteHome(dev: BlockDev, ghost d0: seq<Sector>, ghost t0: seq<Write>, start: nat,
                   block: word, data: Sector, ghost ws: seq<Write>)
    requires Replaying(dev, d0, t0, start, ws) && block < |d0| && !InJournal(start, block)
    modifies dev
    ensures Replaying(dev, d0, t0, start, ws + [Put(block, data)])
  {
    ApplySnoc(d0, ws, Put(block, data));
    dev.Write(block, data);
  }

  /** Pass 2 of a checkpoint: the committed DATA entries go home in log order. */
  method ReplayCommitted(dev: BlockDev, start: nat, head: word, last: word, ghost es: seq<Entry>)
    requires Ring(dev.sectors, start, es) && TargetsOk(es, start, |dev.sectors|)
    requires head == Head(dev.sectors, start) && last == EntrySlot(dev.sectors, start, es, CommitEnd(es))
    modifies dev
    ensures Replaying(dev, old(dev.sectors), old(dev.trace), start, DataWrites(es[..CommitEnd(es)]))
  {
    ghost var d, t, n := dev.sectors, dev.trace, CommitEnd(es);
    var scan: nat := head;
    ghost var j := 0;
    EntrySlotEnds(d, start, es, 0);
    assert es[..0] == [] && t + [] == t;
    assert Replaying(dev, d, t, start, []);
    while scan != last
      invariant j <= n && scan == EntrySlot(d, start, es, j)
      invariant Replaying(dev, d, t, start, DataWrites(es[..j]))
      decreases n - j
    {
      ReadEntry(d, start, es, j);
      DataWritesStep(es, j);
      var buf := ReadSlot(dev, d, t, start, scan, DataWrites(es[..j]));
      if buf[TYPE] == JENT_DATA {
        var dblk := ReadSlot(dev, d, t, start, Next(scan), DataWrites(es[..j]));
        WriteHome(dev, d, t, start, buf[BLOCK], dblk, DataWrites(es[..j]));
        assert DataWrites(es[..j + 1]) == DataWrites(es[..j]) + [Put(buf[BLOCK], dblk)];
        scan := Next(Next(scan));
      } else {
        assert DataWrites(es[..j + 1]) == DataWrites(es[..j]);
        scan := Next(scan);
      }
      j := j + 1;
    }
    if j < n { EntrySlotInjective(d, start, es, j, n); }
    assert j == n;
  }

  method Checkpoint(dev: BlockDev, start: nat, ghost es: seq<Entry>)
    requires Ring(dev.sectors, start, es) && TargetsOk(es, start, |dev.sectors|)
    modifies dev
    ensures var ws := CheckpointWrites(old(dev.sectors), start, es);
      && InRange(ws, |old(dev.sectors)|)
      && dev.trace == old(dev.trace) + ws && dev.sectors == Apply(old(dev.sectors), ws)
    ensures Ring(dev.sectors, start, es[CommitEnd(es)..])
    ensures InRange(DataWrites(es[..CommitEnd(es)]), |old(dev.sectors)|)
    ensures SameTargets(dev.sectors, Apply(old(dev.sectors), DataWrites(es[..CommitEnd(es)])), start)
    ensures dev.sectors[start][SEQ] == old(dev.sectors)[start][SEQ]
  {
    ghost var d := dev.sectors;
    ghost var ws := CheckpointWrites(d, start, es);
    CheckpointCrash(d, start, es, |ws|);
    assert ws[..|ws|] == ws;
    var jsb := dev.Read(start);
    EntrySlotEnds(d, start, es, |es|);
    EntrySlotEnds(d, start, es, CommitEnd(es));
    if jsb[HEAD] == jsb[TAIL] { return; }
    var last, _ := FindLastCommit(dev, start, jsb[HEAD], jsb[TAIL], es);
    if last == jsb[HEAD] { return; }
    ReplayCommitted(dev, start, jsb[HEAD], last, es);
    SealedOk(jsb[HEAD := last]);
    jsb := Seal(jsb[HEAD := last]);
    ghost var dw := DataWrites(es[..CommitEnd(es)]);
    dev.Write(start, jsb);
    assert ws == dw + [Put(start, jsb)] && ws[..|dw|] == dw;
  }

  /** At every crash point of recovery the whole ring is still live, until the superblock
      write empties it. */
  lemma {:induction false} RecoverCrash(d: seq<Sector>, start: nat, es: seq<Entry>, k: nat)
    requires Ring(d, start, es) && TargetsOk(es, start, |d|)
    requires k <= |RecoverWrites(d, start, es)|
    ensures InRange(RecoverWrites(d, start, es), |d|) && Outside(ReplayWrites(es), start, |d|)
    ensures InRange(ReplayWrites(es), |d|)
    ensures var ws := RecoverWrites(d, start, es);
      var c := Apply(d, ws[..k]);
      if k < |ws| then Ring(c, start, es) && ws[..k] == ReplayWrites(es)[..k]
      else Ring(c, start, []) && SameTargets(c, Apply(d, ReplayWrites(es)), start)
  {
    var rw := ReplayWrites(es);
    var ws := RecoverWrites(d, start, es);
    ReplayWritesOutside(es, start, |d|);
    if k < |ws| {
      assert ws[..k] == rw[..k];
      OutsideKeepsRing(d, start, es, rw[..k]);
    } else {
      assert ws[..k] == ws;
      OutsideKeepsRing(d, start, es, rw);
      ApplySnoc(d, rw, ws[|rw|]);
      EntrySlotEnds(d, start, es, |es|);
      SealedOk(d[start][HEAD := Tail(d, start)]);
      PublishHead(Apply(d, rw), start, es, |es|, ws[|rw|].data);
      assert es[|es|..] == [];
    }
  }

  /** The inner scan of recovery: replay the entries before slot `i` that carry number s.
      The scan steps one slot over a foreign DATA entry and so lands on its payload. */
  method ReplayTxn(dev: BlockDev, start: nat, head: word, i: nat, s: word, ghost d: seq<Sector>,
                   ghost t: seq<Write>, ghost es: seq<Entry>, ghost j: nat, ghost ws: seq<Write>)
    returns (recovered: nat)
    requires Ring(d, start, es) && TargetsOk(es, start, |d|) && NoAlias(es)
    requires j < |es| && es[j] == Entry.Commit(s) && i == EntrySlot(d, start, es, j) && head == Head(d, start)
    requires Replaying(dev, d, t, start, ws)
    modifies dev
    ensures Replaying(dev, d, t, start, ws + MatchingWrites(es[..j], s))
    ensures recovered == |MatchingWrites(es[..j], s)|
  {
    recovered := 0;
    var scan: nat := head;
    ghost var m, onPayload, done := 0, false, ws;
    EntrySlotEnds(d, start, es, 0);
    assert es[..0] == [] && ws + [] == ws;
    while scan != i
      invariant m <= j && (onPayload ==> m < j && es[m].Data? && es[m].s != s)
      invariant scan == ScanSlot(d, start, es, m, onPayload)
      invariant done == ws + MatchingWrites(es[..m], s) && Replaying(dev, d, t, start, done)
      invariant recovered == |MatchingWrites(es[..m], s)|
      decreases j - m, !onPayload
    {
      MatchingAppend(ws, es, s, m);
      ghost var at := m;
      var hit;
      scan, hit, m, onPayload := ScanStep(dev, start, scan, s, d, t, es, j, m, onPayload, done);
      if hit {
        done := done + [Put(es[at].block, es[at].payload)];
        recovered := recovered + 1;
      }
    }
    if m < j {
      EntrySlotInjective(d, start, es, m, j);
      NextIsAdv(EntrySlot(d, start, es, m));
    }
  }

  /** Where the inner scan stands: at entry m, or on the payload of a foreign one. */
  ghost function ScanSlot(d: seq<Sector>, start: nat, es: seq<Entry>, m: nat, onPayload: bool): nat
    requires Ring(d, start, es) && m <= |es|
  {
    if onPayload then Next(EntrySlot(d, start, es, m)) else EntrySlot(d, start, es, m)
  }

  /** One step of the inner scan. */
  method ScanStep(dev: BlockDev, start: nat, scan: nat, s: word, ghost d: seq<Sector>, ghost t: seq<Write>,
                  ghost es: seq<Entry>,
                  ghost j: nat, ghost m: nat, ghost onPayload: bool, ghost done: seq<Write>)
    returns (next: nat, hit: bool, ghost m': nat, ghost on': bool)
    requires Ring(d, start, es) && TargetsOk(es, start, |d|) && NoAlias(es)
    requires m < j < |es| && es[j] == Entry.Commit(s) && (onPayload ==> es[m].Data? && es[m].s != s)
    requires scan == ScanSlot(d, start, es, m, onPayload) && Replaying(dev, d, t, start, done)
    modifies dev
    ensures hit <==> es[m].Data? && es[m].s == s
    ensures Replaying(dev, d, t, start, if hit then done + [Put(es[m].block, es[m].payload)] else done)
    ensures if es[m].Data? && !hit && !onPayload then m' == m && on' else m' == m + 1 && !on'
    ensures next == ScanSlot(d, start, es, m', on')
  {
    ReadEntry(d, start, es, m);
    var sbuf := ReadSlot(dev, d, t, start, scan, done);
    hit := sbuf[TYPE] == JENT_DATA && sbuf[SEQ] == s;
    if hit {
      var dblk := ReadSlot(dev, d, t, start, Next(scan), done);
      WriteHome(dev, d, t, start, sbuf[BLOCK], dblk, done);
      next, m', on' := Next(Next(scan)), m + 1, false;
    } else {
      next := Next(scan);
      if !onPayload && es[m].Data? { m', on' := m, true; } else { m', on' := m + 1, false; }
    }
  }

  /** The outer scan of recovery: every COMMIT in the ring replays its transaction. */
  method ReplayRing(dev: BlockDev, start: nat, head: word, tail: word, ghost es: seq<Entry>)
    returns (recovered: nat)
    requires Ring(dev.sectors, start, es) && TargetsOk(es, start, |dev.sectors|) && NoAlias(es)
    requires head == Head(dev.sectors, start) && tail == Tail(dev.sectors, start)
    modifies dev
    ensures Replaying(dev, old(dev.sectors), old(dev.trace), start, ReplayWrites(es))
    ensures recovered == |ReplayWrites(es)|
  {
    ghost var d, t := dev.sectors, dev.trace;
    recovered := 0;
    var i: nat := head;
    ghost var j, done := 0, [];
    EntrySlotEnds(d, start, es, 0);
    assert es[..0] == [] && t + [] == t;
    while i != tail
      invariant j <= |es| && i == EntrySlot(d, start, es, j)
      invariant done == ReplayWrites(es[..j]) && Replaying(dev, d, t, start, done)
      invariant recovered == |done|
      decreases |es| - j
    {
      EntrySlotEnds(d, start, es, |es|);
      ReplayWritesStep(es, j);
      var n;
      i, n := RingStep(dev, start, head, i, d, t, es, j, done);
      done, recovered, j := ReplayWrites(es[..j + 1]), recovered + n, j + 1;
    }
    if j < |es| { ReadEntry(d, start, es, j); }
    assert es[..j] == es;
  }

  /** One step of the outer scan: a COMMIT replays the entries before it that carry its number. */
  method RingStep(dev: BlockDev, start: nat, head: word, i: nat, ghost d: seq<Sector>, ghost t: seq<Write>,
                  ghost es: seq<Entry>,
                  ghost j: nat, ghost done: seq<Write>)
    returns (next: nat, n: nat)
    requires Ring(d, start, es) && TargetsOk(es, start, |d|) && NoAlias(es) && head == Head(d, start)
    requires j < |es| && i == EntrySlot(d, start, es, j) && Replaying(dev, d, t, start, done)
    modifies dev
    ensures next == EntrySlot(d, start, es, j + 1)
    ensures Replaying(dev, d, t, start, if es[j].Commit? then done + MatchingWrites(es[..j], es[j].s) else done)
    ensures n == if es[j].Commit? then |MatchingWrites(es[..j], es[j].s)| else 0
  {
    ReadEntry(d, start, es, j);
    n := 0;
    var buf := ReadSlot(dev, d, t, start, i, done);
    var sum := ComputeChecksum(buf);
    if (buf[TYPE] == JENT_DATA || buf[TYPE] == JENT_COMMIT) && sum == buf[CHECKSUM_WORD] {
      if buf[TYPE] == JENT_DATA {
        next := Next(Next(i));
      } else {
        n := ReplayTxn(dev, start, head, i, buf[SEQ], d, t, es, j, done);
        next := Next(i);
      }
    } else {
      next := Next(i);
    }
  }

  /** A journal that recovery can read: no magic, a broken checksum, or a sound ring. */
  ghost predicate Recoverable(d: seq<Sector>, start: nat, es: seq<Entry>) {
    && Layout(d, start)
    && (d[start][MAGIC] == JOURNAL_MAGIC && ChecksumOk(d[start]) ==>
          Ring(d, start, es) && TargetsOk(es, start, |d|) && NoAlias(es))
  }

  method Recover(dev: BlockDev, start: nat, ghost es: seq<Entry>) returns (wasDirty: bool)
    requires Recoverable(dev.sectors, start, es)
    modifies dev
    ensures old(dev.sectors)[start][MAGIC] != JOURNAL_MAGIC ==>
      dev.sectors == old(dev.sectors) && dev.trace == old(dev.trace) && !wasDirty
    ensures old(dev.sectors)[start][MAGIC] == JOURNAL_MAGIC ==> Ring(dev.sectors, start, [])
    ensures old(dev.sectors)[start][MAGIC] == JOURNAL_MAGIC && !ChecksumOk(old(dev.sectors)[start]) ==>
      SameTargets(dev.sectors, old(dev.sectors), start) && !wasDirty
    ensures old(dev.sectors)[start][MAGIC] == JOURNAL_MAGIC && ChecksumOk(old(dev.sectors)[start]) ==>
      var ws := RecoverWrites(old(dev.sectors), start, es);
      && InRange(ws, |old(dev.sectors)|)
      && dev.trace == old(dev.trace) + ws && dev.sectors == Apply(old(dev.sectors), ws)
      && wasDirty == (ReplayWrites(es) != [])
  {
    ghost var d := dev.sectors;
    var jsb := dev.Read(start);
    if jsb[MAGIC] != JOURNAL_MAGIC { return false; }
    var sum := ComputeChecksum(jsb);
    var recovered := 0;
    if sum != jsb[CHECKSUM_WORD] {
      jsb := jsb[HEAD := 0][TAIL := 0];
    } else {
      RecoverCrash(d, start, es, |RecoverWrites(d, start, es)|);
      recovered := ReplayRing(dev, start, jsb[HEAD], jsb[TAIL], es);
    }
    wasDirty := recovered > 0;
    SealedOk(jsb[HEAD := jsb[TAIL]]);
    jsb := Seal(jsb[HEAD := jsb[TAIL]]);
    if sum == old(dev.sectors)[start][CHECKSUM_WORD] {
      ApplySnoc(d, ReplayWrites(es), Put(start, jsb));
      assert RecoverWrites(d, start, es)[..|RecoverWrites(d, start, es)|] == RecoverWrites(d, start, es);
    }
    dev.Write(start, jsb);
  }

  /** A superblock with one damaged word other than its magic is found out: no block is replayed
      and the ring starts anew. */
  method RecoverDamaged(dev: BlockDev, start: nat, ghost jsb: Sector, ghost k: nat) returns (wasDirty: bool)
    requires Layout(dev.sectors, start) && GoodJsb(jsb) && MAGIC != k < SECTOR_WORDS
    requires OnlyWord(jsb, dev.sectors[start], k) && jsb[k] != dev.sectors[start][k]
    modifies dev
    ensures Ring(dev.sectors, start, []) && SameTargets(dev.sectors, old(dev.sectors), start) && !wasDirty
  {
    DamageFound(jsb, dev.sectors[start], k);
    wasDirty := Recover(dev, start, []);
  }
}
