/** The inner scan of recovery on rings whose blocks may hold anything. It steps one slot over the
    DATA entries of other transactions and so reads their payloads as if they were descriptors;
    here is exactly when that goes wrong. */
module JournalScan {
  import opened Device
  import opened Journal
  import opened JournalOps

  /** The test of the inner scan for number s. */
  predicate Passes(d: seq<Sector>, start: nat, at: nat, s: word)
    requires Layout(d, start) && at < JENT_COUNT
  {
    d[SlotLba(start, at)][TYPE] == JENT_DATA && d[SlotLba(start, at)][SEQ] == s
  }

  function ScanNext(d: seq<Sector>, start: nat, at: nat, s: word): (r: nat)
    requires Layout(d, start) && at < JENT_COUNT
    ensures r < JENT_COUNT
  {
    if Passes(d, start, at, s) then Next(Next(at)) else Next(at)
  }

  /** The slot the scan looks at after k steps from the head. */
  function ScanAt(d: seq<Sector>, start: nat, s: word, k: nat): (r: nat)
    requires Layout(d, start) && Head(d, start) < JENT_COUNT
    ensures r < JENT_COUNT
  {
    if k == 0 then Head(d, start) else ScanNext(d, start, ScanAt(d, start, s, k - 1), s)
  }

  /** The first k slots the scan looks at are not where it stops. */
  ghost predicate Goes(d: seq<Sector>, start: nat, s: word, stop: nat, k: nat)
    requires Layout(d, start) && Head(d, start) < JENT_COUNT
  {
    forall i :: 0 <= i < k ==> ScanAt(d, start, s, i) != stop
  }

  /** Entry m is a DATA entry of transaction s. */
  predicate Belongs(es: seq<Entry>, s: word, m: nat)
    requires m < |es|
  {
    es[m].Data? && es[m].s == s
  }

  /** Entry m belongs to another transaction and its payload looks like a DATA descriptor of s. */
  predicate Imitates(es: seq<Entry>, s: word, m: nat)
    requires m < |es|
  {
    es[m].Data? && es[m].s != s && es[m].payload[TYPE] == JENT_DATA && es[m].payload[SEQ] == s
  }

  /** Before it stops at entry j the scan takes a slot for a descriptor of s that is none. */
  ghost predicate Misreads(d: seq<Sector>, start: nat, es: seq<Entry>, s: word, j: nat)
    requires Ring(d, start, es) && j < |es|
  {
    exists k: nat :: Misread(d, start, es, s, j, k)
  }

  ghost predicate Misread(d: seq<Sector>, start: nat, es: seq<Entry>, s: word, j: nat, k: nat)
    requires Ring(d, start, es) && j < |es|
  {
    && Goes(d, start, s, EntrySlot(d, start, es, j), k + 1) && Passes(d, start, ScanAt(d, start, s, k), s)
    && forall m :: 0 <= m < j && Belongs(es, s, m) ==> ScanAt(d, start, s, k) != EntrySlot(d, start, es, m)
  }

  /** What the scan sees at an entry and on its payload. */
  lemma AtEntry(d: seq<Sector>, start: nat, es: seq<Entry>, s: word, m: nat)
    requires Ring(d, start, es) && m < |es|
    ensures var at := EntrySlot(d, start, es, m);
      && at < JENT_COUNT && (Passes(d, start, at, s) <==> Belongs(es, s, m))
      && EntrySlot(d, start, es, m + 1) == (if es[m].Data? then Next(Next(at)) else Next(at))
      && (es[m].Data? && es[m].s != s ==>
          Next(at) < JENT_COUNT && (Passes(d, start, Next(at), s) <==> Imitates(es, s, m)))
  {
    ReadEntry(d, start, es, m);
  }

  /** One step of the scan from a slot that is not its stop. */
  lemma OneStep(d: seq<Sector>, start: nat, s: word, stop: nat, k: nat, at: nat) returns (n: nat)
    requires Layout(d, start) && Head(d, start) < JENT_COUNT && at < JENT_COUNT && at != stop
    requires ScanAt(d, start, s, k) == at && Goes(d, start, s, stop, k)
    ensures n > 0 && ScanAt(d, start, s, n) == ScanNext(d, start, at, s) && Goes(d, start, s, stop, n)
  {
    n := k + 1;
  }

  /** Slots of entries before j, and their payloads, are not the slot of entry j. */
  lemma NotTheStop(d: seq<Sector>, start: nat, es: seq<Entry>, m: nat, j: nat)
    requires Ring(d, start, es) && m < j < |es|
    ensures EntrySlot(d, start, es, m) != EntrySlot(d, start, es, j)
    ensures es[m].Data? ==> Next(EntrySlot(d, start, es, m)) != EntrySlot(d, start, es, j)
  {
    EntrySlotInjective(d, start, es, m, j);
    NextIsAdv(EntrySlot(d, start, es, m));
  }

  // ----- Without imitation the scan stays on entries and foreign payloads -----

  /** The scan stands at entry m, or on the payload of a foreign entry m. */
  ghost predicate StandsAt(d: seq<Sector>, start: nat, es: seq<Entry>, s: word, k: nat, m: nat, onPayload: bool)
    requires Ring(d, start, es) && m <= |es|
  {
    && (onPayload ==> m < |es| && es[m].Data? && es[m].s != s)
    && ScanAt(d, start, s, k) == ScanSlot(d, start, es, m, onPayload)
  }

  lemma {:induction false} StaysOn(d: seq<Sector>, start: nat, es: seq<Entry>, s: word, j: nat, k: nat) returns (m: nat,
      onPayload: bool)
    requires Ring(d, start, es) && j < |es| && Goes(d, start, s, EntrySlot(d, start, es, j), k)
    requires forall i :: 0 <= i < j ==> !Imitates(es, s, i)
    ensures m <= j && (onPayload ==> m < j) && StandsAt(d, start, es, s, k, m, onPayload)
    decreases k
  {
    if k == 0 {
      EntrySlotEnds(d, start, es, 0);
      return 0, false;
    }
    m, onPayload := StaysOn(d, start, es, s, j, k - 1);
    assert ScanAt(d, start, s, k - 1) != EntrySlot(d, start, es, j);
    AtEntry(d, start, es, s, m);
    if !onPayload && es[m].Data? && es[m].s != s {
      onPayload := true;
    } else {
      m, onPayload := m + 1, false;
    }
  }

  lemma NoImitationNoMisread(d: seq<Sector>, start: nat, es: seq<Entry>, s: word, j: nat, k: nat)
    requires Ring(d, start, es) && j < |es| && forall i :: 0 <= i < j ==> !Imitates(es, s, i)
    ensures !Misread(d, start, es, s, j, k)
  {
    if Goes(d, start, s, EntrySlot(d, start, es, j), k + 1) {
      var m, onPayload := StaysOn(d, start, es, s, j, k);
      assert ScanAt(d, start, s, k) != EntrySlot(d, start, es, j);
      AtEntry(d, start, es, s, m);
    }
  }

  // ----- The first imitation is reached -----

  lemma {:induction false} Reaches(d: seq<Sector>, start: nat, es: seq<Entry>, s: word, j: nat, m: nat) returns (k: nat)
    requires Ring(d, start, es) && m <= j < |es| && forall i :: 0 <= i < m ==> !Imitates(es, s, i)
    ensures ScanAt(d, start, s, k) == EntrySlot(d, start, es, m) && Goes(d, start, s, EntrySlot(d, start, es, j), k)
    decreases m
  {
    if m == 0 {
      EntrySlotEnds(d, start, es, 0);
      return 0;
    }
    var n := m - 1;
    k := Reaches(d, start, es, s, j, n);
    AtEntry(d, start, es, s, n);
    NotTheStop(d, start, es, n, j);
    var at, stop := EntrySlot(d, start, es, n), EntrySlot(d, start, es, j);
    k := OneStep(d, start, s, stop, k, at);
    if es[n].Data? && es[n].s != s { k := OneStep(d, start, s, stop, k, Next(at)); }
  }

  lemma {:induction false} FirstImitation(es: seq<Entry>, s: word, i: nat) returns (m: nat)
    requires i < |es| && Imitates(es, s, i)
    ensures m <= i && Imitates(es, s, m) && forall n :: 0 <= n < m ==> !Imitates(es, s, n)
  {
    m := 0;
    while !Imitates(es, s, m)
      invariant m <= i && forall n :: 0 <= n < m ==> !Imitates(es, s, n)
      decreases i - m
    {
      m := m + 1;
    }
  }

  lemma PayloadIsNoEntry(d: seq<Sector>, start: nat, es: seq<Entry>, m: nat, n: nat)
    requires Ring(d, start, es) && m < |es| && n < |es| && es[m].Data?
    ensures Next(EntrySlot(d, start, es, m)) != EntrySlot(d, start, es, n)
  {
    EntryStep(d, start, es, m);
    NextIsAdv(EntrySlot(d, start, es, m));
    if m < n {
      EntrySlotInjective(d, start, es, m, n);
    } else {
      PayloadAfter(d, start, es, m, n);
    }
  }

  /** The payload of entry m comes after every entry up to m. */
  lemma PayloadAfter(d: seq<Sector>, start: nat, es: seq<Entry>, m: nat, n: nat)
    requires Ring(d, start, es) && n <= m < |es| && es[m].Data?
    ensures EntrySlot(d, start, es, m) < JENT_COUNT && Adv(EntrySlot(d, start, es, m), 1) != EntrySlot(d, start, es, n)
  {
    EntryStep(d, start, es, m);
    TotalSlice(es, m);
    TotalMono(es, n, m);
    TotalBound(es, m + 1);
    AdvAdv(Head(d, start), Total(es[..m]), 1);
    AdvInjective(Head(d, start), Total(es[..n]), Total(es[..m]) + 1);
  }

  lemma ImitationMisread(d: seq<Sector>, start: nat, es: seq<Entry>, s: word, j: nat, i: nat)
    requires Ring(d, start, es) && i < j < |es| && Imitates(es, s, i)
    ensures Misreads(d, start, es, s, j)
  {
    var m := FirstImitation(es, s, i);
    var k := Reaches(d, start, es, s, j, m);
    AtEntry(d, start, es, s, m);
    NotTheStop(d, start, es, m, j);
    var at, stop := EntrySlot(d, start, es, m), EntrySlot(d, start, es, j);
    k := OneStep(d, start, s, stop, k, at);
    forall n | 0 <= n < j && Belongs(es, s, n) ensures Next(at) != EntrySlot(d, start, es, n) {
      PayloadIsNoEntry(d, start, es, m, n);
    }
    MisreadAt(d, start, es, s, j, k, Next(at));
  }

  lemma MisreadAt(d: seq<Sector>, start: nat, es: seq<Entry>, s: word, j: nat, k: nat, at: nat)
    requires Ring(d, start, es) && j < |es| && at < JENT_COUNT && at != EntrySlot(d, start, es, j)
    requires ScanAt(d, start, s, k) == at && Goes(d, start, s, EntrySlot(d, start, es, j), k) && Passes(d, start, at, s)
    requires forall m :: 0 <= m < j && Belongs(es, s, m) ==> at != EntrySlot(d, start, es, m)
    ensures Misreads(d, start, es, s, j)
  {
    assert Misread(d, start, es, s, j, k);
  }

  /** The scan for the COMMIT at entry j misreads a slot exactly if a foreign payload before it
      imitates a descriptor of its transaction. */
  lemma MisreadsIff(d: seq<Sector>, start: nat, es: seq<Entry>, s: word, j: nat)
    requires Ring(d, start, es) && j < |es|
    ensures Misreads(d, start, es, s, j) <==> exists i :: 0 <= i < j && Imitates(es, s, i)
  {
    if i :| 0 <= i < j && Imitates(es, s, i) {
      ImitationMisread(d, start, es, s, j, i);
    } else {
      forall k: nat ensures !Misread(d, start, es, s, j, k) { NoImitationNoMisread(d, start, es, s, j, k); }
    }
  }

  /** So recovery may rely on the whole ring exactly under the premise it is stated with. */
  lemma NoAliasIff(d: seq<Sector>, start: nat, es: seq<Entry>)
    requires Ring(d, start, es)
    ensures NoAlias(es) <==> forall j :: 0 <= j < |es| && es[j].Commit? ==> !Misreads(d, start, es, es[j].s, j)
  {
    if NoAlias(es) {
      forall j | 0 <= j < |es| && es[j].Commit? ensures !Misreads(d, start, es, es[j].s, j) {
        MisreadsIff(d, start, es, es[j].s, j);
      }
    } else {
      var i, j :| 0 <= i < j < |es| && es[i].Data? && es[j].Commit? && es[i].s != es[j].s
        && es[i].payload[TYPE] == JENT_DATA && es[i].payload[SEQ] == es[j].s;
      assert Imitates(es, es[j].s, i);
      MisreadsIff(d, start, es, es[j].s, j);
    }
  }

  // ----- What the scan then writes -----

  /** The home write of a slot taken for a descriptor. */
  function ScanPut(d: seq<Sector>, start: nat, at: nat): Write
    requires Layout(d, start) && at < JENT_COUNT
  {
    Put(d[SlotLba(start, at)][BLOCK], d[SlotLba(start, Next(at))])
  }

  /** The home writes of the first k steps of the scan. */
  function ScanWrites(d: seq<Sector>, start: nat, s: word, k: nat): seq<Write>
    requires Layout(d, start) && Head(d, start) < JENT_COUNT
  {
    if k == 0 then []
    else
      var ws, at := ScanWrites(d, start, s, k - 1), ScanAt(d, start, s, k - 1);
      if Passes(d, start, at, s) then ws + [ScanPut(d, start, at)] else ws
  }

  /** One turn of the inner loop, whatever the slot holds. */
  method ScanTurn(dev: BlockDev, start: nat, at: nat, s: word) returns (next: nat)
    requires Layout(dev.sectors, start) && at < JENT_COUNT
    requires Passes(dev.sectors, start, at, s) ==> dev.sectors[SlotLba(start, at)][BLOCK] < |dev.sectors|
    modifies dev
    ensures next == ScanNext(old(dev.sectors), start, at, s)
    ensures dev.trace == old(dev.trace) + if Passes(old(dev.sectors), start, at, s) then
      [ScanPut(old(dev.sectors), start, at)] else []
  {
    var sbuf := dev.Read(SlotLba(start, at));
    if sbuf[TYPE] == JENT_DATA && sbuf[SEQ] == s {
      var dblk := dev.Read(SlotLba(start, Next(at)));
      dev.Write(sbuf[BLOCK], dblk);
      next := Next(Next(at));
    } else {
      next := Next(at);
    }
  }

  lemma {:induction false} MatchingNext(es: seq<Entry>, s: word, n: nat, m: nat)
    requires m == n + 1 <= |es|
    ensures MatchingWrites(es[..m], s) == MatchingWrites(es[..n], s) + if Belongs(es, s, n) then
      [Put(es[n].block, es[n].payload)] else []
  {
    assert es[..m][..n] == es[..n] && es[..m][n] == es[n];
  }

  /** After k steps the scan is at entry m and has written the blocks of s before it. */
  ghost predicate WroteUpTo(d: seq<Sector>, start: nat, es: seq<Entry>, s: word, m: nat, k: nat)
    requires Ring(d, start, es) && m <= |es|
  {
    ScanAt(d, start, s, k) == EntrySlot(d, start, es, m) && ScanWrites(d, start, s, k) == MatchingWrites(es[..m], s)
  }

  lemma {:induction false} ScanStepIs(d: seq<Sector>, start: nat, s: word, k: nat, next: nat, at: nat)
    requires Layout(d, start) && Head(d, start) < JENT_COUNT && next == k + 1 && at == ScanAt(d, start, s, k)
    ensures ScanAt(d, start, s, next) == ScanNext(d, start, at, s)
    ensures ScanWrites(d, start, s, next) == ScanWrites(d, start, s, k) + if Passes(d, start, at, s) then
      [ScanPut(d, start, at)] else []
  {
  }

  lemma {:induction false} WroteOneMore(d: seq<Sector>, start: nat, es: seq<Entry>, s: word, n: nat, m: nat,
                                        k: nat) returns (k': nat)
    requires Ring(d, start, es) && m == n + 1 <= |es| && !Imitates(es, s, n) && WroteUpTo(d, start, es, s, n, k)
    ensures WroteUpTo(d, start, es, s, m, k')
  {
    var at := EntrySlot(d, start, es, n);
    AtEntry(d, start, es, s, n);
    ReadEntry(d, start, es, n);
    MatchingNext(es, s, n, m);
    k' := k + 1;
    ScanStepIs(d, start, s, k, k', at);
    if es[n].Data? && es[n].s != s {
      ScanStepIs(d, start, s, k', k' + 1, Next(at));
      k' := k' + 1;
    }
  }

  /** Up to the first imitation the scan writes what it should. */
  lemma {:induction false} WritesUpTo(d: seq<Sector>, start: nat, es: seq<Entry>, s: word, m: nat) returns (k: nat)
    requires Ring(d, start, es) && m < |es| && forall i :: 0 <= i < m ==> !Imitates(es, s, i)
    ensures WroteUpTo(d, start, es, s, m, k)
    decreases m
  {
    if m == 0 {
      EntrySlotEnds(d, start, es, 0);
      assert es[..0] == [];
      return 0;
    }
    k := WritesUpTo(d, start, es, s, m - 1);
    k := WroteOneMore(d, start, es, s, m - 1, m, k);
  }

  /** The outcome on a ring that imitates: everything is right up to the first imitating payload,
      and then the sector after that payload is written to the block that the payload names. */
  lemma {:induction false} FirstWrongWrite(d: seq<Sector>, start: nat, es: seq<Entry>, s: word, j: nat) returns (m: nat,
      k: nat)
    requires Ring(d, start, es) && j < |es| && Misreads(d, start, es, s, j)
    ensures m < j && Imitates(es, s, m) && EntrySlot(d, start, es, m) < JENT_COUNT
    ensures ScanWrites(d, start, s, k) == MatchingWrites(es[..m], s)
    ensures ScanWrites(d, start, s, k + 2) ==
      MatchingWrites(es[..m], s) + [Put(es[m].payload[BLOCK], d[SlotLba(start, Adv(EntrySlot(d, start, es, m), 2))])]
  {
    MisreadsIff(d, start, es, s, j);
    var i :| 0 <= i < j && Imitates(es, s, i);
    m := FirstImitation(es, s, i);
    k := WritesUpTo(d, start, es, s, m);
    AtEntry(d, start, es, s, m);
    ReadEntry(d, start, es, m);
    NextIsAdv(EntrySlot(d, start, es, m));
    var at := EntrySlot(d, start, es, m);
    ScanStepIs(d, start, s, k, k + 1, at);
    ScanStepIs(d, start, s, k + 1, k + 2, Next(at));
  }

  // ----- A ring that is misread -----

  /** Two transactions of one block each, numbered q and r; the first stores a block that looks like
      a descriptor of the second. */
  function ImitatingEntries(q: word, r: word): seq<Entry> {
    [Data(q, 0, DataDesc(r, 257)), Entry.Commit(q), Data(r, 0, ZeroSector()), Entry.Commit(r)]
  }

  function ImitatingJsb(r: word): (jsb: Sector)
    ensures GoodJsb(jsb) && jsb[HEAD] == 0 && jsb[TAIL] == 6
  {
    var raw: Sector := ZeroSector()[MAGIC := JOURNAL_MAGIC][SEQ := r][HEAD := 0][TAIL := 6];
    SealedOk(raw);
    Sealed(raw)
  }

  function ImitatingSector(q: word, r: word, x: nat): Sector {
    if x == 1 then ImitatingJsb(r)
    else if x == 2 then DataDesc(q, 0)
    else if x == 3 then DataDesc(r, 257)
    else if x == 4 then CommitDesc(q)
    else if x == 5 then DataDesc(r, 0)
    else if x == 7 then CommitDesc(r)
    else ZeroSector()
  }

  /** A device with a block before its journal and one after it. */
  function ImitatingDevice(q: word, r: word): (d: seq<Sector>)
    ensures |d| == 258 && forall x :: 0 <= x < 258 ==> d[x] == ImitatingSector(q, r, x)
  {
    seq(258, x requires 0 <= x => ImitatingSector(q, r, x))
  }

  lemma {:induction false} ImitatingTotals(q: word, r: word)
    ensures var es := ImitatingEntries(q, r);
      Total(es[..0]) == 0 && Total(es[..1]) == 2 && Total(es[..2]) == 3 && Total(es[..3]) == 5 && Total(es) == 6
  {
    var es := ImitatingEntries(q, r);
    assert es[..1][..0] == es[..0] == [];
    assert es[..2][..1] == es[..1];
    assert es[..3][..2] == es[..2];
  }

  lemma {:induction false} ImitatingSlots(q: word, r: word)
    ensures var d := ImitatingDevice(q, r);
      && d[1] == ImitatingJsb(r) && IsData(d[2], q, 0) && d[3] == DataDesc(r, 257) && IsCommit(d[4], q)
      && IsData(d[5], r, 0) && d[6] == ZeroSector() && IsCommit(d[7], r)
  {
    ParseDescriptors(q, 0);
    ParseDescriptors(r, 0);
  }

  lemma {:induction false} ImitatingRing(q: word, r: word)
    ensures Ring(ImitatingDevice(q, r), 1, ImitatingEntries(q, r))
  {
    var d, es := ImitatingDevice(q, r), ImitatingEntries(q, r);
    ImitatingTotals(q, r);
    ImitatingSlots(q, r);
    forall j | 0 <= j < |es|
      ensures EntrySlot(d, 1, es, j) < JENT_COUNT && EntryAt(d, 1, EntrySlot(d, 1, es, j), es[j])
    {
      assert j == 0 || j == 1 || j == 2 || j == 3;
    }
  }

  lemma {:induction false} EntriesImitate(q: word, r: word)
    requires q != r
    ensures var es := ImitatingEntries(q, r);
      && TargetsOk(es, 1, 258) && !NoAlias(es) && Imitates(es, r, 0)
      && forall i :: 0 <= i < |es| && es[i].Data? ==> es[i].block != 257
  {
    var es := ImitatingEntries(q, r);
    ParseDescriptors(r, 257);
    assert IsData(es[0].payload, r, 257);
    assert es[0].Data? && es[3].Commit? && es[0].s != es[3].s;
  }

  lemma {:induction false} ImitatingSteps(q: word, r: word)
    requires q != r
    ensures ScanWrites(ImitatingDevice(q, r), 1, r, 2) == [Put(257, CommitDesc(q))]
  {
    var d := ImitatingDevice(q, r);
    ParseDescriptors(q, 0);
    ParseDescriptors(r, 257);
    assert IsData(d[2], q, 0) && IsData(d[3], r, 257) && d[4] == CommitDesc(q);
    ScanStepIs(d, 1, r, 0, 1, 0);
    ScanStepIs(d, 1, r, 1, 2, 1);
  }

  /** Recovery of the second transaction misreads this ring: it writes the commit descriptor of the
      first to block 257, which no entry names. */
  lemma {:induction false} ImitationExample(q: word, r: word)
    requires q != r
    ensures var d, es := ImitatingDevice(q, r), ImitatingEntries(q, r);
      && Ring(d, 1, es) && TargetsOk(es, 1, |d|) && !NoAlias(es) && Misreads(d, 1, es, r, 3)
      && ScanWrites(d, 1, r, 2) == [Put(257, CommitDesc(q))]
      && forall i :: 0 <= i < |es| && es[i].Data? ==> es[i].block != 257
  {
    ImitatingRing(q, r);
    EntriesImitate(q, r);
    MisreadsIff(ImitatingDevice(q, r), 1, ImitatingEntries(q, r), r, 3);
    ImitatingSteps(q, r);
  }
}
