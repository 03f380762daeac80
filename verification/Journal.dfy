/** The write-ahead ring journal: on-disk format and the ring of entries. The operations of
    journal.c are in JournalOps. */
module Journal {
  import opened Bits
  import opened Device

  const JOURNAL_MAGIC: word := 0x4A52_4E4C
  const CHECKSUM_SEED: word := 0xDEAD_BEEF
  const JENT_DATA: word := 2
  const JENT_COMMIT: word := 3
  const JOURNAL_BLOCKS := 256
  const JENT_COUNT := 255
  const CHECKSUM_WORD := 127

  // Word positions in the journal superblock and in an entry descriptor.
  const MAGIC := 0
  const SEQ := 1
  const HEAD := 2
  const TAIL := 3
  const TYPE := 0
  const BLOCK := 2

  datatype Err = Ok | NoSpace

  function Xor(a: word, b: word): word {
    Pow2Of32();
    XorBits(a, b, 32)
  }

  /** The seed xor-ed with the first n words. */
  function XorFold(p: seq<word>, n: nat): word
    requires n <= |p|
  {
    if n == 0 then CHECKSUM_SEED else Xor(XorFold(p, n - 1), p[n - 1])
  }

  /** The checksum of a sector covers every word but the last, where it is stored. */
  function Checksum(p: Sector): word {
    XorFold(p, |p| - 1)
  }

  method ComputeChecksum(p: Sector) returns (c: word)
    ensures c == Checksum(p)
  {
    c := CHECKSUM_SEED;
    for i := 0 to CHECKSUM_WORD
      invariant c == XorFold(p, i)
    {
      c := Xor(c, p[i]);
    }
  }

  function Sealed(p: Sector): Sector {
    p[CHECKSUM_WORD := Checksum(p)]
  }

  predicate ChecksumOk(p: Sector) {
    p[CHECKSUM_WORD] == Checksum(p)
  }

  lemma {:induction false} XorFoldFrame(p: seq<word>, q: seq<word>, n: nat)
    requires n <= |p| && n <= |q| && forall i :: 0 <= i < n ==> p[i] == q[i]
    ensures XorFold(p, n) == XorFold(q, n)
  {
    if n > 0 { XorFoldFrame(p, q, n - 1); }
  }

  lemma SealedOk(p: Sector)
    ensures ChecksumOk(Sealed(p))
    ensures forall i :: 0 <= i < CHECKSUM_WORD ==> Sealed(p)[i] == p[i]
  {
    XorFoldFrame(p, Sealed(p), CHECKSUM_WORD);
  }

  method Seal(p: Sector) returns (r: Sector)
    ensures r == Sealed(p)
  {
    var c := ComputeChecksum(p);
    r := p[CHECKSUM_WORD := c];
  }

  // ----- What the checksum covers -----

  /** How many of the first n words have bit j. */
  function Ones(p: seq<word>, n: nat, j: nat): nat
    requires n <= |p|
  {
    if n == 0 then 0 else Ones(p, n - 1, j) + if Bit(p[n - 1], j) then 1 else 0
  }

  lemma {:induction false} FoldBit(p: seq<word>, n: nat, j: nat)
    requires n <= |p| && j < 32
    ensures Bit(XorFold(p, n), j) == (Bit(CHECKSUM_SEED, j) != (Ones(p, n, j) % 2 == 1))
  {
    if n > 0 {
      FoldBit(p, n - 1, j);
      BitOfXor(XorFold(p, n - 1), p[n - 1], 32, j);
    }
  }

  /** Bit j of the checksum is bit j of the seed, flipped once for every word but the last that has
      bit j. */
  lemma ChecksumBit(p: Sector, j: nat)
    requires j < 32
    ensures Bit(Checksum(p), j) == (Bit(CHECKSUM_SEED, j) != (Ones(p, CHECKSUM_WORD, j) % 2 == 1))
  {
    FoldBit(p, CHECKSUM_WORD, j);
  }

  /** The sectors agree in every word but word k. */
  predicate OnlyWord(p: Sector, q: Sector, k: nat) {
    forall i :: 0 <= i < SECTOR_WORDS && i != k ==> p[i] == q[i]
  }

  lemma {:induction false} OnesOfChanged(p: Sector, q: Sector, k: nat, n: nat, j: nat)
    requires k < SECTOR_WORDS && n <= SECTOR_WORDS && OnlyWord(p, q, k) && Bit(p[k], j) != Bit(q[k], j)
    ensures (Ones(p, n, j) % 2 == Ones(q, n, j) % 2) <==> n <= k
  {
    if n > 0 { OnesOfChanged(p, q, k, n - 1, j); }
  }

  /** A change of one word changes the checksum, unless it is the word that stores it. */
  lemma OneWordChanges(p: Sector, q: Sector, k: nat)
    requires k < SECTOR_WORDS && OnlyWord(p, q, k) && p[k] != q[k]
    ensures Checksum(p) == Checksum(q) <==> k == CHECKSUM_WORD
  {
    if k < CHECKSUM_WORD {
      Pow2Of32();
      var j := DifferInBit(p[k], q[k], 32);
      OnesOfChanged(p, q, k, CHECKSUM_WORD, j);
      ChecksumBit(p, j);
      ChecksumBit(q, j);
    } else {
      XorFoldFrame(p, q, CHECKSUM_WORD);
    }
  }

  /** So damage to any one word of a sector that passes the test is found. */
  lemma DamageFound(p: Sector, q: Sector, k: nat)
    requires ChecksumOk(p) && k < SECTOR_WORDS && OnlyWord(p, q, k) && p[k] != q[k]
    ensures !ChecksumOk(q)
  {
    OneWordChanges(p, q, k);
  }

  function ZeroSector(): Sector {
    seq(SECTOR_WORDS, _ => 0)
  }

  function DataDesc(s: word, block: word): Sector {
    Sealed(ZeroSector()[TYPE := JENT_DATA][SEQ := s][BLOCK := block])
  }

  function CommitDesc(s: word): Sector {
    Sealed(ZeroSector()[TYPE := JENT_COMMIT][SEQ := s])
  }

  /** A sector that parses as a DATA descriptor, whatever its padding. */
  predicate IsData(p: Sector, s: word, block: word) {
    p[TYPE] == JENT_DATA && p[SEQ] == s && p[BLOCK] == block && ChecksumOk(p)
  }

  predicate IsCommit(p: Sector, s: word) {
    p[TYPE] == JENT_COMMIT && p[SEQ] == s && ChecksumOk(p)
  }

  /** What is written parses back to what was meant, and as nothing else. */
  lemma ParseDescriptors(s: word, block: word)
    ensures forall s', block' :: IsData(DataDesc(s, block), s', block') <==> s' == s && block' == block
    ensures forall s' :: IsCommit(CommitDesc(s), s') <==> s' == s
    ensures forall s' :: !IsCommit(DataDesc(s, block), s')
    ensures forall s', block' :: !IsData(CommitDesc(s), s', block')
  {
    SealedOk(ZeroSector()[TYPE := JENT_DATA][SEQ := s][BLOCK := block]);
    SealedOk(ZeroSector()[TYPE := JENT_COMMIT][SEQ := s]);
    var p, q := DataDesc(s, block), CommitDesc(s);
    assert p[TYPE] == JENT_DATA && p[SEQ] == s && p[BLOCK] == block && ChecksumOk(p);
    assert q[TYPE] == JENT_COMMIT && q[SEQ] == s && ChecksumOk(q);
  }

  // ----- The ring -----

  function Next(i: nat): nat {
    (i + 1) % JENT_COUNT
  }

  /** n slots further round the ring. */
  function Adv(i: nat, n: nat): (r: nat)
    ensures i < JENT_COUNT && n <= JENT_COUNT ==> r < JENT_COUNT
  {
    if i + n < JENT_COUNT then i + n else i + n - JENT_COUNT
  }

  datatype Entry =
    | Data(s: word, block: word, payload: Sector)
    | Commit(s: word)

  function Width(e: Entry): nat {
    if e.Data? then 2 else 1
  }

  function Total(es: seq<Entry>): nat {
    if es == [] then 0 else Total(es[..|es| - 1]) + Width(es[|es| - 1])
  }

  predicate Layout(d: seq<Sector>, start: nat) {
    start + JOURNAL_BLOCKS <= |d|
  }

  function SlotLba(start: nat, i: nat): nat {
    start + 1 + i
  }

  predicate InJournal(start: nat, lba: nat) {
    start <= lba < start + JOURNAL_BLOCKS
  }

  predicate EntryAt(d: seq<Sector>, start: nat, at: nat, e: Entry)
    requires Layout(d, start) && at < JENT_COUNT
  {
    match e
    case Data(s, b, p) => IsData(d[SlotLba(start, at)], s, b) && d[SlotLba(start, Adv(at, 1))] == p
    case Commit(s) => IsCommit(d[SlotLba(start, at)], s)
  }

  function Head(d: seq<Sector>, start: nat): word
    requires Layout(d, start)
  {
    d[start][HEAD]
  }

  function Tail(d: seq<Sector>, start: nat): word
    requires Layout(d, start)
  {
    d[start][TAIL]
  }

  /** Slot at which entry j of the ring begins. */
  function EntrySlot(d: seq<Sector>, start: nat, es: seq<Entry>, j: nat): nat
    requires Layout(d, start) && j <= |es|
  {
    Adv(Head(d, start), Total(es[..j]))
  }

  ghost predicate Holds(d: seq<Sector>, start: nat, es: seq<Entry>)
    requires Layout(d, start)
  {
    forall j {:trigger EntrySlot(d, start, es, j)} :: 0 <= j < |es| ==>
      EntrySlot(d, start, es, j) < JENT_COUNT && EntryAt(d, start, EntrySlot(d, start, es, j), es[j])
  }

  /** The journal superblock is sound and the live slots head..tail hold exactly `es`. */
  ghost predicate Ring(d: seq<Sector>, start: nat, es: seq<Entry>) {
    && Layout(d, start)
    && GoodJsb(d[start])
    && Total(es) < JENT_COUNT
    && Tail(d, start) == Adv(Head(d, start), Total(es))
    && Holds(d, start, es)
  }

  /** Free slots, as the code counts them from the two indices alone. */
  function Space(head: word, tail: word): int {
    if head == tail then JENT_COUNT - 1
    else if tail > head then JENT_COUNT - 1 - (tail - head)
    else head - tail - 1
  }

  lemma {:induction false} TotalSlice(es: seq<Entry>, j: nat)
    requires j < |es|
    ensures Total(es[..j + 1]) == Total(es[..j]) + Width(es[j])
    ensures Total(es[..j]) < Total(es[..j + 1]) <= Total(es)
    decreases |es| - j
  {
    assert es[..j + 1][..j] == es[..j];
    if j + 1 == |es| {
      assert es[..j + 1] == es;
    } else {
      TotalSlice(es, j + 1);
    }
  }

  lemma {:induction false} TotalBound(es: seq<Entry>, j: nat)
    requires j <= |es|
    ensures Total(es[..j]) <= Total(es)
    ensures j < |es| ==> Total(es[..j]) + Width(es[j]) <= Total(es)
  {
    if j < |es| {
      TotalSlice(es, j);
    } else {
      assert es[..j] == es;
    }
  }

  lemma TotalAppend(es: seq<Entry>, e: Entry)
    ensures Total(es + [e]) == Total(es) + Width(e)
  {
    assert (es + [e])[..|es|] == es;
  }

  lemma AdvAdv(i: nat, m: nat, n: nat)
    requires i < JENT_COUNT && m + n <= JENT_COUNT
    ensures Adv(Adv(i, m), n) == Adv(i, m + n)
  {
  }

  /** Distinct offsets below the ring size are distinct slots. */
  lemma AdvInjective(i: nat, m: nat, n: nat)
    requires i < JENT_COUNT && m < JENT_COUNT && n < JENT_COUNT && m != n
    ensures Adv(i, m) != Adv(i, n)
  {
  }

  lemma NextIsAdv(i: nat)
    requires i < JENT_COUNT
    ensures Next(i) == Adv(i, 1) && Next(Next(i)) == Adv(i, 2)
  {
  }

  /** The two-index space formula equals ring size minus one minus the live slots. */
  lemma SpaceIsFree(d: seq<Sector>, start: nat, es: seq<Entry>)
    requires Ring(d, start, es)
    ensures Space(Head(d, start), Tail(d, start)) == JENT_COUNT - 1 - Total(es)
  {
  }

  /** Live entries survive any change to sectors outside their own slots, as long as the
      head of the ring stays. */
  lemma HoldsFrame(d: seq<Sector>, e: seq<Sector>, start: nat, es: seq<Entry>)
    requires Layout(d, start) && Layout(e, start) && Total(es) < JENT_COUNT
    requires Head(d, start) == Head(e, start)
    requires Holds(d, start, es)
    requires Head(d, start) < JENT_COUNT
    requires forall k: nat :: k < Total(es) ==>
      d[SlotLba(start, Adv(Head(d, start), k))] == e[SlotLba(start, Adv(Head(d, start), k))]
    ensures Holds(e, start, es)
  {
    forall j | 0 <= j < |es| 
      ensures EntrySlot(e, start, es, j) < JENT_COUNT && EntryAt(e, start, EntrySlot(e, start, es, j), es[j])
    {
      TotalBound(es, j);
      var k := Total(es[..j]);
      assert EntryAt(d, start, EntrySlot(d, start, es, j), es[j]);
      assert d[SlotLba(start, Adv(Head(d, start), k))] == e[SlotLba(start, Adv(Head(d, start), k))];
      if es[j].Data? {
        AdvAdv(Head(d, start), k, 1);
        assert d[SlotLba(start, Adv(Head(d, start), k + 1))] == e[SlotLba(start, Adv(Head(d, start), k + 1))];
      }
    }
  }

  // ----- The sector writes of each operation -----

  function LogWrites(d: seq<Sector>, start: nat, s: word, block: word, data: Sector): seq<Write>
    requires Layout(d, start)
  {
    var tail := Tail(d, start);
    [ Put(SlotLba(start, tail), DataDesc(s, block)),
      Put(SlotLba(start, Adv(tail, 1)), data),
      Put(start, Sealed(d[start][TAIL := Adv(tail, 2)])) ]
  }

  /** The number of the transaction after s. */
  function NextSeq(s: word): word {
    if s == WORD_LIMIT - 1 then 0 else s + 1
  }

  lemma NextSeqWraps(s: word)
    ensures NextSeq(s) == (s + 1) % WORD_LIMIT
  {
  }

  function CommitWrites(d: seq<Sector>, start: nat, s: word): seq<Write>
    requires Layout(d, start)
  {
    var tail := Tail(d, start);
    [ Put(SlotLba(start, tail), CommitDesc(s)),
      Put(start, Sealed(d[start][TAIL := Adv(tail, 1)][SEQ := NextSeq(s)])) ]
  }

  /** The home-location writes of the DATA entries, in log order. */
  function DataWrites(es: seq<Entry>): seq<Write> {
    if es == [] then []
    else
      var ws, e := DataWrites(es[..|es| - 1]), es[|es| - 1];
      if e.Data? then ws + [Put(e.block, e.payload)] else ws
  }

  /** Number of entries up to and including the last COMMIT. */
  function CommitEnd(es: seq<Entry>): (r: nat)
    ensures r <= |es|
  {
    if es == [] then 0
    else if es[|es| - 1].Commit? then |es|
    else CommitEnd(es[..|es| - 1])
  }

  function CheckpointWrites(d: seq<Sector>, start: nat, es: seq<Entry>): seq<Write>
    requires Layout(d, start) && Head(d, start) < JENT_COUNT && Total(es) < JENT_COUNT
  {
    TotalBound(es, CommitEnd(es));
    var n := CommitEnd(es);
    if n == 0 then []
    else DataWrites(es[..n]) + [Put(start, Sealed(d[start][HEAD := EntrySlot(d, start, es, n)]))]
  }

  /** The home-location writes of the DATA entries that carry sequence number s. */
  function MatchingWrites(es: seq<Entry>, s: word): seq<Write> {
    if es == [] then []
    else
      var ws, e := MatchingWrites(es[..|es| - 1], s), es[|es| - 1];
      if e.Data? && e.s == s then ws + [Put(e.block, e.payload)] else ws
  }

  /** What recovery replays: at each COMMIT, everything before it with its number. */
  function ReplayWrites(es: seq<Entry>): seq<Write> {
    if es == [] then []
    else
      var init, e := es[..|es| - 1], es[|es| - 1];
      if e.Commit? then ReplayWrites(init) + MatchingWrites(init, e.s) else ReplayWrites(init)
  }

  function RecoverWrites(d: seq<Sector>, start: nat, es: seq<Entry>): seq<Write>
    requires Layout(d, start)
  {
    ReplayWrites(es) + [Put(start, Sealed(d[start][HEAD := Tail(d, start)]))]
  }

  /** Every logged block is a device block outside the journal area. */
  predicate TargetsOk(es: seq<Entry>, start: nat, size: nat) {
    forall j :: 0 <= j < |es| && es[j].Data? ==> es[j].block < size && !InJournal(start, es[j].block)
  }

  predicate Outside(ws: seq<Write>, start: nat, size: nat) {
    forall i :: 0 <= i < |ws| ==> ws[i].lba < size && !InJournal(start, ws[i].lba)
  }

  /** Recovery re-scans from the head with a stride of one over DATA entries of another
      transaction, so it reads their payloads as if they were descriptors. Replay is right
      when no such payload imitates a DATA descriptor of the transaction being replayed. */
  predicate NoAlias(es: seq<Entry>) {
    forall i, j :: 0 <= i < j < |es| && es[i].Data? && es[j].Commit? && es[i].s != es[j].s ==>
      !(es[i].payload[TYPE] == JENT_DATA && es[i].payload[SEQ] == es[j].s)
  }

  lemma {:induction false} DataWritesOutside(es: seq<Entry>, start: nat, size: nat)
    requires TargetsOk(es, start, size)
    ensures Outside(DataWrites(es), start, size)
  {
    if es != [] { DataWritesOutside(es[..|es| - 1], start, size); }
  }

  lemma {:induction false} MatchingWritesOutside(es: seq<Entry>, s: word, start: nat, size: nat)
    requires TargetsOk(es, start, size)
    ensures Outside(MatchingWrites(es, s), start, size)
  {
    if es != [] { MatchingWritesOutside(es[..|es| - 1], s, start, size); }
  }

  lemma {:induction false} ReplayWritesOutside(es: seq<Entry>, start: nat, size: nat)
    requires TargetsOk(es, start, size)
    ensures Outside(ReplayWrites(es), start, size)
  {
    if es != [] {
      ReplayWritesOutside(es[..|es| - 1], start, size);
      if es[|es| - 1].Commit? {
        MatchingWritesOutside(es[..|es| - 1], es[|es| - 1].s, start, size);
      }
    }
  }

  // ----- What a change to the device does to the ring -----

  ghost predicate SameJournal(d: seq<Sector>, e: seq<Sector>, start: nat) {
    |d| == |e| && forall x: nat :: x < |d| && InJournal(start, x) ==> d[x] == e[x]
  }

  ghost predicate SameTargets(d: seq<Sector>, e: seq<Sector>, start: nat) {
    |d| == |e| && forall x: nat :: x < |d| && !InJournal(start, x) ==> d[x] == e[x]
  }

  /** Home-location writes never disturb the journal. */
  lemma OutsideKeepsRing(d: seq<Sector>, start: nat, es: seq<Entry>, ws: seq<Write>)
    requires Ring(d, start, es) && Outside(ws, start, |d|)
    ensures InRange(ws, |d|) && SameJournal(d, Apply(d, ws), start)
    ensures Ring(Apply(d, ws), start, es)
  {
    var e := Apply(d, ws);
    forall x: nat | x < |d| && InJournal(start, x) ensures d[x] == e[x] {
      ApplyFrame(d, ws, x);
    }
    HoldsFrame(d, e, start, es);
  }

  /** Filling free slots leaves the live ring as it was. */
  lemma FreeSlotWrite(d: seq<Sector>, start: nat, es: seq<Entry>, off: nat, v: Sector)
    requires Ring(d, start, es) && Total(es) <= off < JENT_COUNT
    ensures Ring(d[SlotLba(start, Adv(Head(d, start), off)) := v], start, es)
  {
    var e := d[SlotLba(start, Adv(Head(d, start), off)) := v];
    forall k: nat | k < Total(es)
      ensures d[SlotLba(start, Adv(Head(d, start), k))] == e[SlotLba(start, Adv(Head(d, start), k))]
    {
      AdvInjective(Head(d, start), k, off);
    }
    HoldsFrame(d, e, start, es);
  }

  ghost predicate SameSlots(d: seq<Sector>, r: seq<Sector>, start: nat)
    requires Layout(d, start) && Layout(r, start)
  {
    forall x: nat :: start < x < start + JOURNAL_BLOCKS ==> d[x] == r[x]
  }

  lemma SameSlotsEntry(d: seq<Sector>, r: seq<Sector>, start: nat, at: nat, e: Entry)
    requires Layout(d, start) && Layout(r, start) && SameSlots(d, r, start)
    requires at < JENT_COUNT && EntryAt(d, start, at, e)
    ensures EntryAt(r, start, at, e)
  {
  }

  lemma AppendHolds(d: seq<Sector>, r: seq<Sector>, start: nat, es: seq<Entry>, e: Entry)
    requires Layout(d, start) && Layout(r, start) && SameSlots(d, r, start)
    requires Holds(d, start, es) && Head(r, start) == Head(d, start)
    requires Adv(Head(d, start), Total(es)) < JENT_COUNT
    requires EntryAt(d, start, Adv(Head(d, start), Total(es)), e)
    ensures Holds(r, start, es + [e])
  {
    forall j | 0 <= j < |es + [e]|
      ensures EntrySlot(r, start, es + [e], j) < JENT_COUNT
      ensures EntryAt(r, start, EntrySlot(r, start, es + [e], j), (es + [e])[j])
    {
      assert (es + [e])[..j] == es[..j];
      assert j == |es| ==> es[..j] == es;
      var at := EntrySlot(r, start, es + [e], j);
      assert j < |es| ==> at == EntrySlot(d, start, es, j);
      SameSlotsEntry(d, r, start, at, (es + [e])[j]);
    }
  }

  /** A superblock that recovery will believe. */
  predicate GoodJsb(jsb: Sector) {
    jsb[MAGIC] == JOURNAL_MAGIC && ChecksumOk(jsb) && jsb[HEAD] < JENT_COUNT
  }

  /** Publishing a new tail over an entry already in place appends it to the ring. */
  lemma PublishTail(d: seq<Sector>, start: nat, es: seq<Entry>, e: Entry, jsb: Sector)
    requires Ring(d, start, es) && Total(es) + Width(e) < JENT_COUNT
    requires EntryAt(d, start, Tail(d, start), e)
    requires GoodJsb(jsb) && jsb[HEAD] == Head(d, start)
    requires jsb[TAIL] == Adv(Tail(d, start), Width(e))
    ensures Ring(d[start := jsb], start, es + [e])
  {
    TotalAppend(es, e);
    AdvAdv(Head(d, start), Total(es), Width(e));
    AppendHolds(d, d[start := jsb], start, es, e);
  }

  lemma {:induction false} TotalConcat(a: seq<Entry>, b: seq<Entry>)
    ensures Total(a + b) == Total(a) + Total(b)
    decreases |b|
  {
    if b == [] {
      assert a + b == a;
    } else {
      TotalConcat(a, b[..|b| - 1]);
      assert (a + b)[..|a + b| - 1] == a + b[..|b| - 1];
    }
  }

  /** Slots counted from a later head are the same slots. */
  lemma {:induction false} SlotFromHead(head: nat, es: seq<Entry>, n: nat, j: nat)
    requires n + j <= |es| && head < JENT_COUNT && Total(es) < JENT_COUNT
    ensures Adv(Adv(head, Total(es[..n])), Total(es[n..][..j])) == Adv(head, Total(es[..n + j]))
    ensures Total(es[n..][..j]) <= Total(es[..n + j])
  {
    assert es[..n + j] == es[..n] + es[n..][..j];
    TotalConcat(es[..n], es[n..][..j]);
    TotalBound(es, n + j);
    AdvAdv(head, Total(es[..n]), Total(es[n..][..j]));
  }

  lemma DropHolds(d: seq<Sector>, r: seq<Sector>, start: nat, es: seq<Entry>, n: nat)
    requires Layout(d, start) && Layout(r, start) && SameSlots(d, r, start)
    requires Holds(d, start, es) && n <= |es|
    requires Head(d, start) < JENT_COUNT && Total(es) < JENT_COUNT
    requires Head(r, start) == EntrySlot(d, start, es, n)
    ensures Holds(r, start, es[n..])
  {
    forall j | 0 <= j < |es[n..]|
      ensures EntrySlot(r, start, es[n..], j) < JENT_COUNT
      ensures EntryAt(r, start, EntrySlot(r, start, es[n..], j), es[n..][j])
    {
      SlotFromHead(Head(d, start), es, n, j);
      var at := EntrySlot(d, start, es, n + j);
      SameSlotsEntry(d, r, start, at, es[n + j]);
    }
  }

  /** Publishing a new head drops a prefix of the ring and keeps the rest intact. */
  lemma PublishHead(d: seq<Sector>, start: nat, es: seq<Entry>, n: nat, jsb: Sector)
    requires Ring(d, start, es) && n <= |es|
    requires GoodJsb(jsb) && jsb[TAIL] == Tail(d, start)
    requires jsb[HEAD] == EntrySlot(d, start, es, n)
    ensures Ring(d[start := jsb], start, es[n..])
  {
    DropHolds(d, d[start := jsb], start, es, n);
    assert es[n..][..|es| - n] == es[n..] && es[..|es|] == es;
    SlotFromHead(Head(d, start), es, n, |es| - n);
  }
}
