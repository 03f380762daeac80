/** The write-back block cache in front of any number of devices. The view of a block is the
    cached data if a line holds it and the device's otherwise; every operation acts on the
    view as it would on a plain device. */
module BlockCache {
  import opened Device

  const LINES := 64
  const NEVER := 0xFFFF_FFFF_FFFF_FFFF

  type Disks = seq<seq<Sector>>

  datatype Line = Line(dev: nat, lba: nat, data: Sector, valid: bool, dirty: bool, time: nat)

  datatype Result<T> = Ok(value: T) | Err

  predicate InDisks(disks: Disks, d: nat, b: nat) {
    d < |disks| && b < |disks[d]|
  }

  predicate Matches(line: Line, d: nat, b: nat) {
    line.valid && line.dev == d && line.lba == b
  }

  /** A valid line names an existing block of a device; a clean one equals it; only a device
      that can be written has dirty lines. */
  predicate LineOk(line: Line, disks: Disks, writable: seq<bool>) {
    line.valid ==>
      && InDisks(disks, line.dev, line.lba)
      && (!line.dirty ==> line.data == disks[line.dev][line.lba])
      && (line.dirty ==> line.dev < |writable| && writable[line.dev])
  }

  predicate Distinct(a: Line, b: Line) {
    a.valid && b.valid ==> a.dev != b.dev || a.lba != b.lba
  }

  ghost predicate WellFormed(lines: seq<Line>, disks: Disks, writable: seq<bool>) {
    && |lines| == LINES
    && (forall i :: 0 <= i < LINES ==> LineOk(lines[i], disks, writable))
    && (forall i, j {:trigger Distinct(lines[i], lines[j])} :: 0 <= i < LINES && 0 <= j < LINES && i != j ==>
        Distinct(lines[i], lines[j]))
  }

  ghost predicate Caches(lines: seq<Line>, d: nat, b: nat) {
    exists i :: 0 <= i < |lines| && Matches(lines[i], d, b)
  }

  ghost function View(lines: seq<Line>, disks: Disks, d: nat, b: nat): Sector
    requires InDisks(disks, d, b)
  {
    if Caches(lines, d, b) then (var i :| 0 <= i < |lines| && Matches(lines[i], d, b); lines[i].data) else disks[d][b]
  }

  /** What the devices hold as far as clients can tell. */
  ghost function Abs(lines: seq<Line>, disks: Disks): (r: Disks)
    ensures |r| == |disks| && forall d :: 0 <= d < |disks| ==> |r[d]| == |disks[d]|
    ensures forall d: nat, b: nat :: InDisks(disks, d, b) ==> r[d][b] == View(lines, disks, d, b)
  {
    seq(|disks|, d requires 0 <= d < |disks| => seq(|disks[d]|,
      b requires 0 <= b < |disks[d]| => View(lines, disks, d, b)))
  }

  function Store(disks: Disks, d: nat, b: nat, data: Sector): (r: Disks)
    requires InDisks(disks, d, b)
    ensures |r| == |disks| && forall e :: 0 <= e < |disks| ==> |r[e]| == |disks[e]|
    ensures forall e: nat, c: nat :: InDisks(disks, e, c) ==> r[e][c] == if e == d && c == b then data else disks[e][c]
  {
    var row: seq<Sector> := disks[d][b := data];
    disks[d := row]
  }

  lemma SameDisks(x: Disks, y: Disks)
    requires |x| == |y| && forall d :: 0 <= d < |x| ==> |x[d]| == |y[d]|
    requires forall d: nat, b: nat :: InDisks(x, d, b) ==> x[d][b] == y[d][b]
    ensures x == y
  {
    forall d | 0 <= d < |x| ensures x[d] == y[d] {
      forall b | 0 <= b < |x[d]| ensures x[d][b] == y[d][b] { assert InDisks(x, d, b); }
    }
  }

  lemma ViewHit(lines: seq<Line>, disks: Disks, writable: seq<bool>, i: nat)
    requires WellFormed(lines, disks, writable) && i < LINES && lines[i].valid
    ensures InDisks(disks, lines[i].dev, lines[i].lba)
    ensures View(lines, disks, lines[i].dev, lines[i].lba) == lines[i].data
  {
    var d, b := lines[i].dev, lines[i].lba;
    assert LineOk(lines[i], disks, writable) && Matches(lines[i], d, b);
    var j :| 0 <= j < |lines| && Matches(lines[j], d, b) && View(lines, disks, d, b) == lines[j].data;
    if i != j { assert Distinct(lines[i], lines[j]); }
  }

  /** The view at a block where two cache states agree line by line. */
  lemma ViewAgree(lines: seq<Line>, disks: Disks, lines': seq<Line>, disks': Disks, writable: seq<bool>, d: nat, b: nat)
    requires WellFormed(lines, disks, writable) && WellFormed(lines', disks', writable)
    requires InDisks(disks, d, b) && InDisks(disks', d, b)
    requires forall i :: 0 <= i < LINES ==> (Matches(lines[i], d, b) <==> Matches(lines'[i], d, b))
    requires forall i :: 0 <= i < LINES && Matches(lines[i], d, b) ==> lines[i].data == lines'[i].data
    requires !Caches(lines, d, b) ==> disks[d][b] == disks'[d][b]
    ensures View(lines, disks, d, b) == View(lines', disks', d, b)
  {
    if Caches(lines, d, b) {
      var i :| 0 <= i < |lines| && Matches(lines[i], d, b);
      ViewHit(lines, disks, writable, i);
      ViewHit(lines', disks', writable, i);
    }
  }

  // ----- What each kind of change does to the view -----

  lemma TouchKeeps(lines: seq<Line>, disks: Disks, writable: seq<bool>, i: nat, time: nat)
    requires WellFormed(lines, disks, writable) && i < LINES
    ensures WellFormed(lines[i := lines[i].(time := time)], disks, writable)
    ensures Abs(lines[i := lines[i].(time := time)], disks) == Abs(lines, disks)
  {
    var lines' := lines[i := lines[i].(time := time)];
    StillDistinct(lines, lines', disks, writable);
    forall d: nat, b: nat | InDisks(disks, d, b) ensures View(lines', disks, d, b) == View(lines, disks, d, b) {
      ViewAgree(lines, disks, lines', disks, writable, d, b);
    }
    SameDisks(Abs(lines', disks), Abs(lines, disks));
  }

  /** Lines that name the same blocks stay distinct. */
  lemma StillDistinct(lines: seq<Line>, lines': seq<Line>, disks: Disks, writable: seq<bool>)
    requires WellFormed(lines, disks, writable) && |lines'| == LINES
    requires forall i :: 0 <= i < LINES ==>
      lines'[i].valid == lines[i].valid && lines'[i].dev == lines[i].dev && lines'[i].lba == lines[i].lba
    ensures forall i, j {:trigger Distinct(lines'[i], lines'[j])} :: 0 <= i < LINES && 0 <= j < LINES && i != j ==>
      Distinct(lines'[i], lines'[j])
  {
    forall i, j | 0 <= i < LINES && 0 <= j < LINES && i != j ensures Distinct(lines'[i], lines'[j]) {
      assert Distinct(lines[i], lines[j]);
    }
  }

  /** Writing a dirty line to its device changes the device, not the view. */
  lemma WriteBackKeeps(lines: seq<Line>, disks: Disks, writable: seq<bool>, i: nat)
    requires WellFormed(lines, disks, writable) && i < LINES && lines[i].valid
    ensures InDisks(disks, lines[i].dev, lines[i].lba)
    ensures var disks' := Store(disks, lines[i].dev, lines[i].lba, lines[i].data);
      var lines' := lines[i := lines[i].(dirty := false)];
      WellFormed(lines', disks', writable) && Abs(lines', disks') == Abs(lines, disks)
  {
    assert LineOk(lines[i], disks, writable);
    var d0, b0 := lines[i].dev, lines[i].lba;
    var disks' := Store(disks, d0, b0, lines[i].data);
    var lines' := lines[i := lines[i].(dirty := false)];
    forall j | 0 <= j < LINES ensures LineOk(lines'[j], disks', writable) {
      assert LineOk(lines[j], disks, writable);
      if j != i { assert Distinct(lines[i], lines[j]); }
    }
    StillDistinct(lines, lines', disks, writable);
    assert Matches(lines[i], d0, b0);
    forall d: nat, b: nat | InDisks(disks', d, b) ensures View(lines', disks', d, b) == View(lines, disks, d, b) {
      ViewAgree(lines, disks, lines', disks', writable, d, b);
    }
    SameDisks(Abs(lines', disks'), Abs(lines, disks));
  }

  /** Giving a line without unsaved data to a block that is not cached. */
  lemma FillStores(lines: seq<Line>, disks: Disks, writable: seq<bool>, i: nat, line: Line)
    requires WellFormed(lines, disks, writable) && i < LINES && (lines[i].valid ==> !lines[i].dirty)
    requires line.valid && LineOk(line, disks, writable) && !Caches(lines, line.dev, line.lba)
    ensures InDisks(disks, line.dev, line.lba)
    ensures WellFormed(lines[i := line], disks, writable)
    ensures Abs(lines[i := line], disks) == Store(Abs(lines, disks), line.dev, line.lba, line.data)
  {
    var lines' := lines[i := line];
    forall j, k | 0 <= j < LINES && 0 <= k < LINES && j != k ensures Distinct(lines'[j], lines'[k]) {
      assert Distinct(lines[j], lines[k]);
      assert !Matches(lines[j], line.dev, line.lba) && !Matches(lines[k], line.dev, line.lba);
    }
    ViewHit(lines', disks, writable, i);
    forall d: nat, b: nat | InDisks(disks, d, b) && !(d == line.dev && b == line.lba)
      ensures View(lines', disks, d, b) == View(lines, disks, d, b)
    {
      if Matches(lines[i], d, b) {
        ViewHit(lines, disks, writable, i);
        assert LineOk(lines[i], disks, writable);
        forall j | 0 <= j < LINES
          ensures !Matches(lines'[j], d, b)
        {
          if j != i { assert Distinct(lines[i], lines[j]); }
        }
      } else {
        ViewAgree(lines, disks, lines', disks, writable, d, b);
      }
    }
    SameDisks(Abs(lines', disks), Store(Abs(lines, disks), line.dev, line.lba, line.data));
  }

  /** Overwriting a cached block. */
  lemma UpdateStores(lines: seq<Line>, disks: Disks, writable: seq<bool>, i: nat, data: Sector)
    requires WellFormed(lines, disks, writable) && i < LINES && lines[i].valid
    requires lines[i].dev < |writable| && writable[lines[i].dev]
    ensures InDisks(disks, lines[i].dev, lines[i].lba)
    ensures var lines' := lines[i := lines[i].(data := data, dirty := true)];
      WellFormed(lines', disks, writable) &&
        Abs(lines', disks) == Store(Abs(lines, disks), lines[i].dev, lines[i].lba, data)
  {
    assert LineOk(lines[i], disks, writable);
    var d0, b0 := lines[i].dev, lines[i].lba;
    var lines' := lines[i := lines[i].(data := data, dirty := true)];
    StillDistinct(lines, lines', disks, writable);
    ViewHit(lines', disks, writable, i);
    forall d: nat, b: nat | InDisks(disks, d, b) && !(d == d0 && b == b0)
      ensures View(lines', disks, d, b) == View(lines, disks, d, b)
    {
      ViewAgree(lines, disks, lines', disks, writable, d, b);
    }
    SameDisks(Abs(lines', disks), Store(Abs(lines, disks), d0, b0, data));
  }

  // ----- The cache -----

  /** The line an eviction should take: the least recently used clean one, or if every valid
      line is dirty the least recently used of those. */
  ghost predicate IsVictim(lines: seq<Line>, i: int, clean: bool) {
    && 0 <= i < |lines| && lines[i].valid && (clean ==> !lines[i].dirty)
    && forall j :: 0 <= j < |lines| && lines[j].valid && (clean ==> !lines[j].dirty) ==> lines[i].time <= lines[j].time
  }

  lemma MissFills(lines: seq<Line>, disks: Disks, writable: seq<bool>, i: nat, d: nat, b: nat, time: nat)
    requires WellFormed(lines, disks, writable) && i < LINES && (lines[i].valid ==> !lines[i].dirty)
    requires InDisks(disks, d, b) && !Caches(lines, d, b)
    ensures var lines' := lines[i := Line(d, b, disks[d][b], true, false, time)];
      && WellFormed(lines', disks, writable) && Abs(lines', disks) == Abs(lines, disks)
      && View(lines, disks, d, b) == disks[d][b]
  {
    FillStores(lines, disks, writable, i, Line(d, b, disks[d][b], true, false, time));
    SameDisks(Store(Abs(lines, disks), d, b, disks[d][b]), Abs(lines, disks));
  }

  /** A line claimed for a block whose read failed is in order exactly if its old data happens to
      be the block's. */
  lemma FailedReadIff(lines: seq<Line>, disks: Disks, writable: seq<bool>, i: nat, d: nat, b: nat, time: nat)
    requires WellFormed(lines, disks, writable) && i < LINES && (lines[i].valid ==> !lines[i].dirty)
    requires InDisks(disks, d, b) && !Caches(lines, d, b)
    ensures var lines' := lines[i := Line(d, b, lines[i].data, true, false, time)];
      && (WellFormed(lines', disks, writable) <==> lines[i].data == disks[d][b])
      && (WellFormed(lines', disks, writable) ==> Abs(lines', disks) == Abs(lines, disks))
  {
    if lines[i].data == disks[d][b] {
      MissFills(lines, disks, writable, i, d, b, time);
    } else {
      assert !LineOk(lines[i := Line(d, b, lines[i].data, true, false, time)][i], disks, writable);
    }
  }

  /** A block with no dirty line is on its device as clients see it. */
  lemma CleanBlock(lines: seq<Line>, disks: Disks, writable: seq<bool>, d: nat, b: nat)
    requires WellFormed(lines, disks, writable) && InDisks(disks, d, b)
    requires forall i :: 0 <= i < LINES && Matches(lines[i], d, b) ==> !lines[i].dirty
    ensures disks[d][b] == View(lines, disks, d, b)
  {
    if Caches(lines, d, b) {
      var i :| 0 <= i < |lines| && Matches(lines[i], d, b);
      ViewHit(lines, disks, writable, i);
      assert LineOk(lines[i], disks, writable);
    }
  }

  lemma CleanIsView(lines: seq<Line>, disks: Disks, writable: seq<bool>)
    requires WellFormed(lines, disks, writable) && forall i :: 0 <= i < LINES && lines[i].valid ==> !lines[i].dirty
    ensures disks == Abs(lines, disks)
  {
    forall d: nat, b: nat | InDisks(disks, d, b) ensures disks[d][b] == View(lines, disks, d, b) {
      CleanBlock(lines, disks, writable, d, b);
    }
    SameDisks(disks, Abs(lines, disks));
  }

  /** The plain device after writing consecutive blocks. */
  function StoreAll(disks: Disks, d: nat, lba: nat, data: seq<Sector>): (r: Disks)
    requires d < |disks| && lba + |data| <= |disks[d]|
    ensures |r| == |disks| && forall e :: 0 <= e < |disks| ==> |r[e]| == |disks[e]|
    decreases |data|
  {
    if data == [] then disks
    else Store(StoreAll(disks, d, lba, data[..|data| - 1]), d, lba + |data| - 1, data[|data| - 1])
  }

  lemma StoreAllNext(disks: Disks, d: nat, lba: nat, data: seq<Sector>, k: nat)
    requires d < |disks| && lba + |data| <= |disks[d]| && k < |data|
    ensures StoreAll(disks, d, lba, data[..k + 1]) == Store(StoreAll(disks, d, lba, data[..k]), d, lba + k, data[k])
  {
    assert data[..k + 1][..k] == data[..k];
  }

  /** Only the blocks written differ. */
  lemma {:induction false} StoreAllElsewhere(disks: Disks, d: nat, lba: nat, data: seq<Sector>, b: nat)
    requires d < |disks| && lba + |data| <= |disks[d]| && b < |disks[d]| && !(lba <= b < lba + |data|)
    ensures StoreAll(disks, d, lba, data)[d][b] == disks[d][b]
    decreases |data|
  {
    if data != [] {
      StoreAllElsewhere(disks, d, lba, data[..|data| - 1], b);
      assert InDisks(StoreAll(disks, d, lba, data[..|data| - 1]), d, b);
    }
  }

  predicate SameShape(disks: Disks, disks': Disks) {
    |disks'| == |disks| && forall d :: 0 <= d < |disks| ==> |disks'[d]| == |disks[d]|
  }

  /** The block a line names is as it was. */
  predicate Untouched(line: Line, disks: Disks, disks': Disks) {
    line.valid && InDisks(disks, line.dev, line.lba) ==>
      InDisks(disks', line.dev, line.lba) && disks'[line.dev][line.lba] == disks[line.dev][line.lba]
  }

  /** Line i has unsaved data and its device refuses the write. */
  predicate Refused(lines: seq<Line>, oks: seq<bool>, i: nat)
    requires i < |lines| && i < |oks|
  {
    lines[i].valid && lines[i].dirty && !oks[i]
  }

  predicate Loses(lines: seq<Line>, disks: Disks, oks: seq<bool>, i: nat)
    requires i < |lines| && i < |oks|
  {
    Refused(lines, oks, i) && InDisks(disks, lines[i].dev, lines[i].lba) &&
      disks[lines[i].dev][lines[i].lba] != lines[i].data
  }

  predicate NoLoss(lines: seq<Line>, disks: Disks, oks: seq<bool>, n: nat)
    requires n <= |lines| && n <= |oks|
  {
    forall i :: 0 <= i < n ==> !Loses(lines, disks, oks, i)
  }

  /** block_try_sync after its first i lines. */
  ghost predicate Cleaned(lines0: seq<Line>, disks0: Disks, oks: seq<bool>, lines: seq<Line>, disks: Disks, i: nat)
    requires |lines0| == |oks| == LINES
  {
    && |lines| == LINES && SameShape(disks0, disks)
    && (forall j :: 0 <= j < LINES ==>
        lines[j] == if j < i && lines0[j].valid then lines0[j].(dirty := false) else lines0[j])
    && (forall j :: 0 <= j < LINES && (j >= i || Refused(lines0, oks, j)) ==> Untouched(lines0[j], disks0, disks))
  }

  function CleanLine(lines: seq<Line>, i: nat): seq<Line>
    requires i < |lines|
  {
    if lines[i].valid && lines[i].dirty then lines[i := lines[i].(dirty := false)] else lines
  }

  function CleanDisks(lines: seq<Line>, disks: Disks, oks: seq<bool>, i: nat): Disks
    requires i < |lines| && i < |oks| && (lines[i].valid ==> InDisks(disks, lines[i].dev, lines[i].lba))
  {
    if lines[i].valid && lines[i].dirty && oks[i] then Store(disks, lines[i].dev, lines[i].lba, lines[i].data)
      else disks
  }

  lemma CleanStep(lines0: seq<Line>, disks0: Disks, writable: seq<bool>, oks: seq<bool>, lines: seq<Line>, disks: Disks,
                  i: nat)
    requires WellFormed(lines0, disks0, writable) && |oks| == LINES && i < LINES &&
      Cleaned(lines0, disks0, oks, lines, disks, i)
    requires NoLoss(lines0, disks0, oks, i) ==>
      WellFormed(lines, disks, writable) && Abs(lines, disks) == Abs(lines0, disks0)
    ensures lines[i].valid ==> InDisks(disks, lines[i].dev, lines[i].lba)
    ensures Cleaned(lines0, disks0, oks, CleanLine(lines, i), CleanDisks(lines, disks, oks, i), i + 1)
    ensures NoLoss(lines0, disks0, oks, i + 1) ==>
      && WellFormed(CleanLine(lines, i), CleanDisks(lines, disks, oks, i), writable)
      && Abs(CleanLine(lines, i), CleanDisks(lines, disks, oks, i)) == Abs(lines0, disks0)
  {
    assert LineOk(lines0[i], disks0, writable) && Untouched(lines0[i], disks0, disks);
    CleanedOneMore(lines0, disks0, writable, oks, lines, disks, i, i + 1);
    if NoLoss(lines0, disks0, oks, i + 1) && lines[i].valid && lines[i].dirty {
      assert !Loses(lines0, disks0, oks, i);
      WriteBackKeeps(lines, disks, writable, i);
      if !oks[i] { SameDisks(Store(disks, lines[i].dev, lines[i].lba, lines[i].data), disks); }
    }
  }

  lemma CleanedOneMore(lines0: seq<Line>, disks0: Disks, writable: seq<bool>, oks: seq<bool>, lines: seq<Line>,
                       disks: Disks, i: nat, next: nat)
    requires WellFormed(lines0, disks0, writable) && |oks| == LINES && i < LINES &&
      Cleaned(lines0, disks0, oks, lines, disks, i)
    requires (lines[i].valid ==> InDisks(disks, lines[i].dev, lines[i].lba)) && next == i + 1
    ensures Cleaned(lines0, disks0, oks, CleanLine(lines, i), CleanDisks(lines, disks, oks, i), next)
  {
    var lines', disks' := CleanLine(lines, i), CleanDisks(lines, disks, oks, i);
    forall j | 0 <= j < LINES && (j >= next || Refused(lines0, oks, j)) ensures Untouched(lines0[j], disks0, disks') {
      assert Untouched(lines0[j], disks0, disks);
      if j != i { assert Distinct(lines0[i], lines0[j]); }
    }
  }

  lemma CleanEnd(lines0: seq<Line>, disks0: Disks, writable: seq<bool>, oks: seq<bool>, lines: seq<Line>, disks: Disks)
    requires WellFormed(lines0, disks0, writable) && |oks| == LINES && Cleaned(lines0, disks0, oks, lines, disks, LINES)
    requires NoLoss(lines0, disks0, oks, LINES) ==> WellFormed(lines, disks, writable)
    ensures WellFormed(lines, disks, writable) <==> NoLoss(lines0, disks0, oks, LINES)
    ensures NoLoss(lines0, disks0, oks, LINES) ==> disks == Abs(lines, disks)
  {
    if NoLoss(lines0, disks0, oks, LINES) {
      CleanIsView(lines, disks, writable);
    } else {
      var j :| 0 <= j < LINES && Loses(lines0, disks0, oks, j);
      assert Untouched(lines0[j], disks0, disks);
      assert !LineOk(lines[j], disks, writable);
    }
  }

  /** No line but the first is in use. */
  predicate OnlyFirst(lines: seq<Line>) {
    forall i :: 0 < i < |lines| ==> !lines[i].valid
  }

  /** The first of the least recently used valid lines below k, or of the clean ones among them;
      -1 if there is none. A time stamp at the top of its range never wins. */
  function Oldest(lines: seq<Line>, clean: bool, k: nat): (i: int)
    requires k <= |lines|
    ensures -1 <= i < k
    ensures i >= 0 ==> lines[i].valid && (clean ==> !lines[i].dirty) && lines[i].time < NEVER
    ensures i >= 0 ==> forall j :: 0 <= j < k && lines[j].valid && (clean ==> !lines[j].dirty) ==>
      lines[i].time <= lines[j].time
    ensures i < 0 ==> forall j :: 0 <= j < k && lines[j].valid && (clean ==> !lines[j].dirty) ==> lines[j].time >= NEVER
  {
    if k == 0 then -1
    else
      var best := Oldest(lines, clean, k - 1);
      var line := lines[k - 1];
      if line.valid && (clean ==> !line.dirty) && line.time < (if best < 0 then NEVER else lines[best].time) then k - 1
        else best
  }

  /** The line the scan of cache_evict settles on. */
  function Victim(lines: seq<Line>): (i: nat)
    requires |lines| == LINES
    ensures i < LINES && (i == 0 || lines[i].valid)
  {
    if Oldest(lines, true, LINES) >= 0 then Oldest(lines, true, LINES)
    else if Oldest(lines, false, LINES) >= 0 then Oldest(lines, false, LINES) else 0
  }

  /** A clean line is taken before a dirty one, and in both cases a least recently used one. */
  lemma VictimIsOldest(lines: seq<Line>)
    requires |lines| == LINES
    ensures (exists j :: 0 <= j < LINES && lines[j].valid && !lines[j].dirty && lines[j].time < NEVER) ==>
      IsVictim(lines, Victim(lines), true)
    ensures (exists j :: 0 <= j < LINES && lines[j].valid && lines[j].time < NEVER) ==>
      lines[Victim(lines)].valid && (lines[Victim(lines)].dirty ==> IsVictim(lines, Victim(lines), false))
  {
  }

  /** Making room needs a write-back that the device refuses. */
  predicate BackRefused(lines: seq<Line>, ok: bool)
    requires |lines| == LINES
  {
    lines[Victim(lines)].valid && lines[Victim(lines)].dirty && !ok
  }

  /** Every device block is as before or what clients see there. */
  ghost predicate OnlyView(disks: Disks, view: Disks, disks': Disks)
    requires SameShape(disks, view)
  {
    && SameShape(disks, disks')
    && forall d: nat, b: nat {:trigger InDisks(disks, d, b)} :: InDisks(disks, d, b) ==>
        disks'[d][b] == disks[d][b] || disks'[d][b] == view[d][b]
  }

  lemma OnlyViewTrans(disks: Disks, view: Disks, mid: Disks, disks': Disks)
    requires SameShape(disks, view) && OnlyView(disks, view, mid) && OnlyView(mid, view, disks')
    ensures OnlyView(disks, view, disks')
  {
    forall d: nat, b: nat | InDisks(disks, d, b) ensures disks'[d][b] == disks[d][b] || disks'[d][b] == view[d][b] {
      assert InDisks(mid, d, b);
    }
  }

  lemma NextSlice(s: seq<Sector>, lo: nat, k: nat)
    requires lo + k < |s|
    ensures s[lo..lo + k] + [s[lo + k]] == s[lo..lo + k + 1]
  {
  }

  /** Every device block is as before, or what clients saw there before or see there now. */
  ghost predicate OnlyViews(disks: Disks, view: Disks, view': Disks, disks': Disks)
    requires SameShape(disks, view)
  {
    && SameShape(disks, disks') && SameShape(disks, view')
    && forall d: nat, b: nat {:trigger InDisks(disks, d, b)} :: InDisks(disks, d, b) ==>
      disks'[d][b] == disks[d][b] || disks'[d][b] == view[d][b] || disks'[d][b] == view'[d][b]
  }

  lemma OnlyViewsStep(disks: Disks, view: Disks, mid: Disks, now: Disks, disks': Disks, d: nat, lba: nat,
                      data: seq<Sector>, k: nat, ok: bool)
    requires SameShape(disks, view) && d < |disks| && lba + |data| <= |disks[d]| && k < |data|
    requires now == StoreAll(view, d, lba, data[..k]) && OnlyViews(disks, view, now, mid) && OnlyView(mid, now, disks')
    ensures OnlyViews(disks, view, if ok then Store(now, d, lba + k, data[k]) else now, disks')
  {
    StoreAllElsewhere(view, d, lba, data[..k], lba + k);
    forall e: nat, b: nat | InDisks(disks, e, b)
      ensures disks'[e][b] == disks[e][b] || disks'[e][b] == view[e][b]
        || disks'[e][b] == (if ok then Store(now, d, lba + k, data[k]) else now)[e][b]
    {
      assert InDisks(mid, e, b) && InDisks(now, e, b);
    }
  }

  /** Block k of a write is stored, or it is refused. */
  lemma WriteStep(disks: Disks, view: Disks, mid: Disks, now: Disks, disks': Disks, now': Disks, d: nat, lba: nat,
                  data: seq<Sector>, k: nat, ok: bool)
    requires SameShape(disks, view) && d < |disks| && lba + |data| <= |disks[d]| && k < |data|
    requires now == StoreAll(view, d, lba, data[..k]) && OnlyViews(disks, view, now, mid) && OnlyView(mid, now, disks')
    requires now' == if ok then Store(now, d, lba + k, data[k]) else now
    ensures ok ==> now' == StoreAll(view, d, lba, data[..k + 1])
    ensures OnlyViews(disks, view, now', disks')
  {
    StoreAllNext(view, d, lba, data, k);
    OnlyViewsStep(disks, view, mid, now, disks', d, lba, data, k, ok);
  }

  /** Among the first n lines, those of the blocks lo to hi - 1 of device d have nothing unsaved. */
  ghost predicate SavedIn(lines: seq<Line>, d: nat, lo: nat, hi: nat, n: nat) {
    n <= |lines| && forall j :: 0 <= j < n && lines[j].valid && lines[j].dev == d && lo <= lines[j].lba < hi ==>
      !lines[j].dirty
  }

  lemma SavedOneMore(lines: seq<Line>, d: nat, lo: nat, hi: nat)
    requires SavedIn(lines, d, lo, hi, LINES) && SavedIn(lines, d, hi, hi + 1, LINES)
    ensures SavedIn(lines, d, lo, hi + 1, LINES)
  {
  }

  // ----- The order of use -----

  /** A use of a block: its device and number. */
  type Use = (nat, nat)

  /** The place of the last use of a block, counted from 1; 0 for a block never used. */
  function LastUse(uses: seq<Use>, x: Use): (n: nat)
    ensures n <= |uses| && (n > 0 ==> uses[n - 1] == x)
    ensures forall k :: n <= k < |uses| ==> uses[k] != x
  {
    if uses == [] then 0
    else if uses[|uses| - 1] == x then |uses| else LastUse(uses[..|uses| - 1], x)
  }

  lemma NextUse(uses: seq<Use>, x: Use, y: Use)
    ensures LastUse(uses + [x], y) == if y == x then |uses| + 1 else LastUse(uses, y)
  {
    assert (uses + [x])[..|uses|] == uses;
  }

  /** The time of every valid line is that of the last use of its block. */
  ghost predicate Dated(lines: seq<Line>, clock: nat, uses: seq<Use>) {
    && clock == |uses|
    && forall i :: 0 <= i < |lines| && lines[i].valid ==> DatedLine(lines[i], uses)
  }

  predicate DatedLine(line: Line, uses: seq<Use>) {
    0 < line.time == LastUse(uses, (line.dev, line.lba))
  }

  /** Line i is the one of block b of device d, used at the given time; the others are as before. */
  predicate Touched(lines: seq<Line>, lines': seq<Line>, i: nat, d: nat, b: nat, clock: nat) {
    && |lines'| == |lines| && i < |lines| && Matches(lines'[i], d, b) && lines'[i].time == clock
    && forall j :: 0 <= j < |lines| && j != i ==> lines'[j] == lines[j]
  }

  lemma TouchDates(lines: seq<Line>, lines': seq<Line>, clock: nat, uses: seq<Use>, i: nat, d: nat, b: nat)
    requires Dated(lines, clock, uses) && Touched(lines, lines', i, d, b, clock + 1)
    requires forall j :: 0 <= j < |lines| && Matches(lines[j], d, b) ==> j == i
    ensures Dated(lines', clock + 1, uses + [(d, b)])
  {
    forall j | 0 <= j < |lines'| && lines'[j].valid ensures DatedLine(lines'[j], uses + [(d, b)]) {
      NextUse(uses, (d, b), (lines'[j].dev, lines'[j].lba));
      if j != i { assert DatedLine(lines[j], uses) && !Matches(lines[j], d, b); }
    }
  }

  lemma HitDates(lines: seq<Line>, disks: Disks, writable: seq<bool>, lines': seq<Line>, clock: nat, uses: seq<Use>,
                 i: nat, d: nat, b: nat)
    requires WellFormed(lines, disks, writable) && Dated(lines, clock, uses)
    requires Touched(lines, lines', i, d, b, clock + 1) && Matches(lines[i], d, b)
    ensures Dated(lines', clock + 1, uses + [(d, b)])
  {
    forall j | 0 <= j < LINES && Matches(lines[j], d, b) ensures j == i {
      assert j != i ==> Distinct(lines[j], lines[i]);
    }
    TouchDates(lines, lines', clock, uses, i, d, b);
  }

  /** Least recently used in terms of the requests: the block that loses its line was last used
      before the block of every other clean line, or of every other line if none is clean. */
  lemma VictimUsedFirst(lines: seq<Line>, disks: Disks, writable: seq<bool>, clock: nat, uses: seq<Use>, j: nat)
    requires WellFormed(lines, disks, writable) && Dated(lines, clock, uses) && clock < NEVER
    requires j < LINES && lines[j].valid && j != Victim(lines)
    ensures var v := lines[Victim(lines)];
      v.valid && (v.dirty || !lines[j].dirty ==>
        LastUse(uses, (v.dev, v.lba)) < LastUse(uses, (lines[j].dev, lines[j].lba)))
    ensures !lines[j].dirty ==> !lines[Victim(lines)].dirty
  {
    var i := Victim(lines);
    assert DatedLine(lines[j], uses);
    VictimIsOldest(lines);
    assert DatedLine(lines[i], uses) && Distinct(lines[i], lines[j]);
  }

  /** The uses of `count` consecutive blocks. */
  function Span(d: nat, lba: nat, count: nat): (r: seq<Use>)
    ensures |r| == count && forall k :: 0 <= k < count ==> r[k] == (d, lba + k)
  {
    seq(count, k requires 0 <= k < count => (d, lba + k))
  }

  lemma SpanNext(uses: seq<Use>, d: nat, lba: nat, k: nat)
    ensures uses + Span(d, lba, k) + [(d, lba + k)] == uses + Span(d, lba, k + 1)
  {
    assert Span(d, lba, k) + [(d, lba + k)] == Span(d, lba, k + 1);
  }

  /** The uses that a request for block b adds: one, unless room could not be made. */
  ghost function UsesOf(lines: seq<Line>, d: nat, b: nat, writeOk: bool): seq<Use>
    requires |lines| == LINES
  {
    if !Caches(lines, d, b) && BackRefused(lines, writeOk) then [] else [(d, b)]
  }

  /** Saving a line leaves its block and time. */
  predicate SameTimes(lines: seq<Line>, lines': seq<Line>) {
    |lines'| == |lines| && forall i :: 0 <= i < |lines| ==> lines'[i].(dirty := lines[i].dirty) == lines[i]
  }

  lemma SameTimesDated(lines: seq<Line>, lines': seq<Line>, clock: nat, uses: seq<Use>)
    requires SameTimes(lines, lines') && Dated(lines, clock, uses)
    ensures Dated(lines', clock, uses)
  {
    forall i | 0 <= i < |lines'| && lines'[i].valid ensures DatedLine(lines'[i], uses) {
      assert lines'[i].(dirty := lines[i].dirty) == lines[i] && DatedLine(lines[i], uses);
    }
  }

  class Cache {
    var lines: seq<Line>
    var disks: Disks
    var clock: nat
    const writable: seq<bool>
    ghost var uses: seq<Use>

    /** The times of the lines tell the order in which their blocks were last used. */
    ghost predicate InOrder()
      reads this
    {
      Dated(lines, clock, uses)
    }

    ghost predicate Valid()
      reads this
    {
      WellFormed(lines, disks, writable) && |writable| == |disks|
    }

    /** The empty cache. */
    constructor (disks: Disks, writable: seq<bool>)
      requires |writable| == |disks|
      ensures Valid() && this.disks == disks && this.writable == writable && Abs(lines, this.disks) == disks
      ensures forall i :: 0 <= i < LINES ==> !lines[i].valid
      ensures uses == [] && InOrder()
    {
      var zero: Sector := seq(SECTOR_WORDS, _ => 0);
      lines := seq(LINES, _ => Line(0, 0, zero, false, false, 0));
      this.disks, this.writable, clock, uses := disks, writable, 0, [];
      new;
      SameDisks(Abs(lines, disks), disks);
    }

    /** cache_lookup */
    method Lookup(d: nat, b: nat) returns (i: int)
      requires Valid()
      modifies this`lines, this`clock, this`uses
      ensures Valid() && Abs(lines, disks) == Abs(old(lines), disks)
      ensures -1 <= i < LINES
      ensures i < 0 ==> !Caches(lines, d, b) && lines == old(lines) && clock == old(clock) && uses == old(uses)
      ensures i >= 0 ==> uses == old(uses) + [(d, b)]
      ensures old(InOrder()) ==> InOrder()
      ensures i >= 0 ==> lines[i].time == clock == old(clock) + 1
      ensures i >= 0 ==> Matches(lines[i], d, b) && lines == old(lines)[i := old(lines)[i].(time := lines[i].time)]
    {
      for k := 0 to LINES
        invariant lines == old(lines) && clock == old(clock) && uses == old(uses)
        invariant forall j :: 0 <= j < k ==> !Matches(lines[j], d, b)
      {
        if lines[k].valid && lines[k].dev == d && lines[k].lba == b {
          Touch(k, d, b);
          return k;
        }
      }
      return -1;
    }

    /** A hit: the line's time becomes the present. */
    method Touch(i: nat, d: nat, b: nat)
      requires Valid() && i < LINES && Matches(lines[i], d, b)
      modifies this`lines, this`clock, this`uses
      ensures Valid() && Abs(lines, disks) == Abs(old(lines), disks)
      ensures clock == old(clock) + 1 && lines == old(lines)[i := old(lines)[i].(time := clock)]
      ensures uses == old(uses) + [(d, b)] && (old(InOrder()) ==> InOrder())
    {
      TouchKeeps(lines, disks, writable, i, clock + 1);
      clock := clock + 1;
      lines, uses := lines[i := lines[i].(time := clock)], uses + [(d, b)];
      if old(InOrder()) { HitDates(old(lines), disks, writable, lines, old(clock), old(uses), i, d, b); }
    }

    /** The scan of cache_evict. With no valid line at all it takes line 0. */
    method ChooseVictim() returns (i: nat)
      requires |lines| == LINES
      ensures i == Victim(lines)
    {
      var bestValid, oldestValid := -1, NEVER;
      var bestClean, oldestClean := -1, NEVER;
      for k := 0 to LINES
        invariant bestValid == Oldest(lines, false, k) && oldestValid == if bestValid < 0 then NEVER
          else lines[bestValid].time
        invariant bestClean == Oldest(lines, true, k) && oldestClean == if bestClean < 0 then NEVER
          else lines[bestClean].time
      {
        if lines[k].valid && lines[k].time < oldestValid {
          oldestValid, bestValid := lines[k].time, k;
        }
        if lines[k].valid && !lines[k].dirty && lines[k].time < oldestClean {
          oldestClean, bestClean := lines[k].time, k;
        }
      }
      var idx := if bestClean >= 0 then bestClean else bestValid;
      return if idx < 0 then 0 else idx;
    }

    /** Write a line to its device; `ok` is the device's answer. */
    method WriteBack(i: nat, ok: bool)
      requires Valid() && i < LINES && lines[i].valid && lines[i].dirty
      modifies this`lines, this`disks
      ensures Valid() && Abs(lines, disks) == Abs(old(lines), old(disks))
      ensures !ok ==> lines == old(lines) && disks == old(disks)
      ensures ok ==> lines == old(lines)[i := old(lines)[i].(dirty := false)]
      ensures ok ==>
        InDisks(old(disks), lines[i].dev, lines[i].lba) &&
          disks == Store(old(disks), lines[i].dev, lines[i].lba, lines[i].data)
      ensures OnlyView(old(disks), Abs(old(lines), old(disks)), disks)
      ensures old(InOrder()) ==> InOrder()
    {
      WriteBackKeeps(lines, disks, writable, i);
      ViewHit(lines, disks, writable, i);
      if ok {
        disks := Store(disks, lines[i].dev, lines[i].lba, lines[i].data);
        lines := lines[i := lines[i].(dirty := false)];
        if old(InOrder()) { SameTimesDated(old(lines), lines, clock, uses); }
      }
    }

    /** cache_evict up to the point where a line is free to be reused. A failed write-back leaves
        everything in place, so no unsaved data is lost. */
    method Evict(ok: bool) returns (i: int)
      requires Valid()
      modifies this`lines, this`disks
      ensures Valid() && Abs(lines, disks) == Abs(old(lines), old(disks))
      ensures OnlyView(old(disks), Abs(old(lines), old(disks)), disks)
      ensures i == if BackRefused(old(lines), ok) then -1 else Victim(old(lines))
      ensures i < 0 ==> lines == old(lines) && disks == old(disks)
      ensures i >= 0 ==>
        lines == old(lines)[i := old(lines)[i].(dirty := lines[i].dirty)] && (lines[i].valid ==> !lines[i].dirty)
      ensures forall d: nat, b: nat {:trigger Caches(lines, d, b)} :: !Caches(old(lines), d, b) ==>
        !Caches(lines, d, b) && (InDisks(disks, d, b) ==> InDisks(old(disks), d, b) && disks[d][b] == old(disks)[d][b])
      ensures OnlyFirst(old(lines)) ==> OnlyFirst(lines) && i <= 0
      ensures old(InOrder()) ==> InOrder()
    {
      var v := ChooseVictim();
      if lines[v].valid && lines[v].dirty {
        assert Matches(lines[v], lines[v].dev, lines[v].lba);
        WriteBack(v, ok);
        if !ok { return -1; }
      }
      return v;
    }

    /** One block of block_read. `readOk` is the device's answer to the read that a miss needs;
        a refused read leaves the line claiming the block with whatever data it held before, so
        the cache is in order afterwards exactly if no such read was refused, the write-back that
        goes before it was, or the line happens to hold the block's data already. */
    method ReadBlock(d: nat, b: nat, writeOk: bool, readOk: bool) returns (r: Result<Sector>)
      requires Valid() && InDisks(disks, d, b)
      modifies this
      ensures r.Ok? <==> Caches(old(lines), d, b) || (readOk && !BackRefused(old(lines), writeOk))
      ensures r.Ok? ==> r.value == View(old(lines), old(disks), d, b)
      ensures Valid() <==>
        || readOk || Caches(old(lines), d, b) || BackRefused(old(lines), writeOk)
        || old(lines)[Victim(old(lines))].data == old(disks)[d][b]
      ensures Valid() ==> Abs(lines, disks) == Abs(old(lines), old(disks))
      ensures OnlyView(old(disks), Abs(old(lines), old(disks)), disks)
      ensures OnlyFirst(old(lines)) ==> OnlyFirst(lines)
      ensures uses == old(uses) + UsesOf(old(lines), d, b, writeOk)
      ensures old(InOrder()) ==> InOrder()
    {
      var i := Lookup(d, b);
      if i >= 0 {
        ViewHit(lines, disks, writable, i);
        assert Abs(lines, disks)[d][b] == Abs(old(lines), disks)[d][b];
        return Ok(lines[i].data);
      }
      i := Evict(writeOk);
      if i < 0 { return Err; }
      assert !Caches(lines, d, b);
      assert Abs(lines, disks)[d][b] == Abs(old(lines), old(disks))[d][b];
      r := Fill(i, d, b, readOk);
    }

    /** The end of cache_evict and the device read of block_read: line i becomes the clean line of
        the block, with its old data if the device refuses. */
    method Fill(i: nat, d: nat, b: nat, readOk: bool) returns (r: Result<Sector>)
      requires Valid() && i < LINES && (lines[i].valid ==> !lines[i].dirty)
      requires InDisks(disks, d, b) && !Caches(lines, d, b)
      modifies this`lines, this`clock, this`uses
      ensures r == if readOk then Ok(disks[d][b]) else Err
      ensures View(old(lines), disks, d, b) == disks[d][b]
      ensures lines == old(lines)[i :=
        Line(d, b, if readOk then disks[d][b] else old(lines)[i].data, true, false, clock)]
      ensures clock == old(clock) + 1 && uses == old(uses) + [(d, b)] && (old(InOrder()) ==> InOrder())
      ensures Valid() <==> readOk || old(lines)[i].data == disks[d][b]
      ensures Valid() ==> Abs(lines, disks) == Abs(old(lines), disks)
    {
      clock := clock + 1;
      FailedReadIff(lines, disks, writable, i, d, b, clock);
      MissFills(lines, disks, writable, i, d, b, clock);
      lines := lines[i := lines[i].(valid := true, dev := d, lba := b, dirty := false, time := clock)];
      uses := uses + [(d, b)];
      if old(InOrder()) { TouchDates(old(lines), lines, old(clock), old(uses), i, d, b); }
      if !readOk { return Err; }
      lines := lines[i := lines[i].(data := disks[d][b])];
      if old(InOrder()) { TouchDates(old(lines), lines, old(clock), old(uses), i, d, b); }
      assert lines == old(lines)[i := Line(d, b, disks[d][b], true, false, clock)];
      return Ok(lines[i].data);
    }

    /** One block of block_write. */
    method WriteBlock(d: nat, b: nat, data: Sector, writeOk: bool) returns (ok: bool)
      requires Valid() && InDisks(disks, d, b) && writable[d]
      modifies this
      ensures Valid() && (ok <==> Caches(old(lines), d, b) || !BackRefused(old(lines), writeOk))
      ensures uses == old(uses) + UsesOf(old(lines), d, b, writeOk)
      ensures old(InOrder()) ==> InOrder()
      ensures OnlyView(old(disks), Abs(old(lines), old(disks)), disks)
      ensures Abs(lines, disks) == if ok then Store(Abs(old(lines), old(disks)), d, b, data)
        else Abs(old(lines), old(disks))
      ensures OnlyFirst(old(lines)) ==> OnlyFirst(lines)
    {
      var i := Lookup(d, b);
      if i >= 0 {
        Overwrite(i, data);
        return true;
      }
      ok := WriteMiss(d, b, data, writeOk);
    }

    /** block_write of a block that is not cached. */
    method WriteMiss(d: nat, b: nat, data: Sector, writeOk: bool) returns (ok: bool)
      requires Valid() && InDisks(disks, d, b) && writable[d] && !Caches(lines, d, b)
      modifies this
      ensures Valid() && ok == !BackRefused(old(lines), writeOk)
      ensures uses == old(uses) + (if ok then [(d, b)] else []) && (old(InOrder()) ==> InOrder())
      ensures OnlyView(old(disks), Abs(old(lines), old(disks)), disks)
      ensures Abs(lines, disks) == if ok then Store(Abs(old(lines), old(disks)), d, b, data)
        else Abs(old(lines), old(disks))
      ensures OnlyFirst(old(lines)) ==> OnlyFirst(lines)
    {
      var i := Evict(writeOk);
      if i < 0 { return false; }
      Claim(i, d, b, data);
      return true;
    }

    /** The copy of block_write into the line of a cached block. */
    method Overwrite(i: nat, data: Sector)
      requires Valid() && i < LINES && lines[i].valid && lines[i].dev < |writable| && writable[lines[i].dev]
      modifies this`lines
      ensures Valid() && lines == old(lines)[i := old(lines)[i].(data := data, dirty := true)]
      ensures InDisks(disks, lines[i].dev, lines[i].lba)
      ensures Abs(lines, disks) == Store(Abs(old(lines), disks), lines[i].dev, lines[i].lba, data)
      ensures old(InOrder()) ==> InOrder()
    {
      UpdateStores(lines, disks, writable, i, data);
      lines := lines[i := lines[i].(data := data, dirty := true)];
      forall j | 0 <= j < LINES && lines[j].valid && old(InOrder()) ensures DatedLine(lines[j], uses) {
        assert DatedLine(old(lines)[j], uses);
      }
    }

    /** The end of cache_evict and the copy of block_write: line i becomes the dirty line of the block. */
    method Claim(i: nat, d: nat, b: nat, data: Sector)
      requires Valid() && i < LINES && (lines[i].valid ==> !lines[i].dirty)
      requires InDisks(disks, d, b) && writable[d] && !Caches(lines, d, b)
      modifies this`lines, this`clock, this`uses
      ensures Valid() && lines == old(lines)[i := Line(d, b, data, true, true, clock)]
      ensures clock == old(clock) + 1 && uses == old(uses) + [(d, b)] && (old(InOrder()) ==> InOrder())
      ensures Abs(lines, disks) == Store(Abs(old(lines), disks), d, b, data)
    {
      clock := clock + 1;
      FillStores(lines, disks, writable, i, Line(d, b, data, true, true, clock));
      lines := lines[i := lines[i].(valid := true, dev := d, lba := b, dirty := false, time := clock)];
      lines := lines[i := lines[i].(data := data, dirty := true)];
      uses := uses + [(d, b)];
      if old(InOrder()) { TouchDates(old(lines), lines, old(clock), old(uses), i, d, b); }
    }

    /** block_read of several blocks; `writeOk[k]` answers the write-back that block k may need. */
    method Read(d: nat, lba: nat, count: nat, writeOk: seq<bool>) returns (r: Result<seq<Sector>>)
      requires Valid() && d < |disks| && lba + count <= |disks[d]| && |writeOk| == count
      modifies this
      ensures Valid() && Abs(lines, disks) == Abs(old(lines), old(disks))
      ensures r.Ok? ==> r.value == Abs(old(lines), old(disks))[d][lba..lba + count]
      ensures r.Err? ==> exists k :: 0 <= k < count && !writeOk[k]
      ensures OnlyView(old(disks), Abs(old(lines), old(disks)), disks)
      ensures r.Ok? ==> uses == old(uses) + Span(d, lba, count)
      ensures old(InOrder()) ==> InOrder()
    {
      var buf: seq<Sector> := [];
      ghost var abs := Abs(lines, disks);
      ghost var row := abs[d];
      for k := 0 to count
        invariant Valid() && Abs(lines, disks) == abs && OnlyView(old(disks), abs, disks)
        invariant buf == row[lba..lba + k]
        invariant uses == old(uses) + Span(d, lba, k) && (old(InOrder()) ==> InOrder())
      {
        var x := ReadNext(d, lba + k, writeOk[k], old(disks), abs);
        if x.Err? { return Err; }
        NextSlice(row, lba, k);
        SpanNext(old(uses), d, lba, k);
        buf := buf + [x.value];
      }
      return Ok(buf);
    }

    /** One block of a longer read that started on `disks0` with the view `abs`. */
    method ReadNext(d: nat, b: nat, writeOk: bool, ghost disks0: Disks, ghost abs: Disks) returns (x: Result<Sector>)
      requires Valid() && InDisks(disks, d, b) && SameShape(disks0, abs) && Abs(lines, disks) == abs &&
        OnlyView(disks0, abs, disks)
      modifies this
      ensures Valid() && Abs(lines, disks) == abs && OnlyView(disks0, abs, disks)
      ensures InDisks(abs, d, b) && (x.Ok? ==> x.value == abs[d][b]) && (x.Err? ==> !writeOk)
      ensures (x.Ok? ==> uses == old(uses) + [(d, b)]) && (old(InOrder()) ==> InOrder())
    {
      assert abs[d][b] == View(lines, disks, d, b);
      ghost var mid := disks;
      x := ReadBlock(d, b, writeOk, true);
      OnlyViewTrans(disks0, abs, mid, disks);
    }

    /** block_write of several blocks. A failure leaves the blocks before it written. */
    method Write(d: nat, lba: nat, data: seq<Sector>, writeOk: seq<bool>) returns (done: nat)
      requires Valid() && d < |disks| && lba + |data| <= |disks[d]| && |writeOk| == |data| && writable[d]
      modifies this
      ensures Valid() && done <= |data| && (done < |data| ==> !writeOk[done])
      ensures Abs(lines, disks) == StoreAll(Abs(old(lines), old(disks)), d, lba, data[..done])
      ensures OnlyViews(old(disks), Abs(old(lines), old(disks)), Abs(lines, disks), disks)
      ensures uses == old(uses) + Span(d, lba, done) && (old(InOrder()) ==> InOrder())
    {
      done := 0;
      assert data[..0] == [];
      ghost var view := Abs(lines, disks);
      while done < |data|
        invariant Valid() && done <= |data| && SameShape(old(disks), disks)
        invariant Abs(lines, disks) == StoreAll(view, d, lba, data[..done])
        invariant OnlyViews(old(disks), view, Abs(lines, disks), disks)
        invariant uses == old(uses) + Span(d, lba, done) && (old(InOrder()) ==> InOrder())
      {
        SpanNext(old(uses), d, lba, done);
        var n := WriteNext(d, lba, data, done, writeOk[done], old(disks), view);
        if n == done { return; }
        assert Span(d, lba + done, 1) == [(d, lba + done)];
        done := n;
      }
    }

    /** Block k of a longer write that started on `disks0` with the view `view`. */
    method WriteNext(d: nat, lba: nat, data: seq<Sector>, k: nat, writeOk: bool, ghost disks0: Disks,
                     ghost view: Disks) returns (n: nat)
      requires Valid() && SameShape(disks0, view) && SameShape(disks0, disks) && d < |disks0| && k < |data|
      requires lba + |data| <= |disks0[d]| && writable[d]
      requires Abs(lines, disks) == StoreAll(view, d, lba, data[..k]) &&
        OnlyViews(disks0, view, Abs(lines, disks), disks)
      modifies this
      ensures Valid() && SameShape(disks0, disks) && (n == k + 1 || (n == k && !writeOk))
      ensures Abs(lines, disks) == StoreAll(view, d, lba, data[..n])
      ensures OnlyViews(disks0, view, Abs(lines, disks), disks)
      ensures uses == old(uses) + Span(d, lba + k, n - k) && (old(InOrder()) ==> InOrder())
    {
      ghost var mid, now := disks, Abs(lines, disks);
      var ok := WriteBlock(d, lba + k, data[k], writeOk);
      WriteStep(disks0, view, mid, now, disks, Abs(lines, disks), d, lba, data, k, ok);
      n := if ok then k + 1 else k;
      assert Span(d, lba + k, n - k) == if ok then [(d, lba + k)] else [];
    }

    /** The body of the sync loops: a line is saved, or the device refuses. */
    method SyncLine(i: nat, ok: bool) returns (e: bool)
      requires Valid() && i < LINES
      modifies this`lines, this`disks
      ensures Valid() && Abs(lines, disks) == Abs(old(lines), old(disks))
      ensures |lines| == |old(lines)| && forall j :: 0 <= j < LINES ==>
        lines[j] == old(lines)[j] || lines[j] == old(lines)[j].(dirty := false)
      ensures e ==> !ok
      ensures !e && lines[i].valid ==> !lines[i].dirty
      ensures OnlyView(old(disks), Abs(old(lines), old(disks)), disks)
      ensures old(InOrder()) ==> InOrder()
    {
      if lines[i].valid && lines[i].dirty {
        WriteBack(i, ok);
        return !ok;
      }
      return false;
    }

    /** block_sync. Whether or not it succeeds the view is unchanged; if it does, the devices
        hold exactly the view. */
    method Sync(oks: seq<bool>) returns (ok: bool)
      requires Valid() && |oks| == LINES
      modifies this`lines, this`disks
      ensures Valid() && Abs(lines, disks) == Abs(old(lines), old(disks))
      ensures ok ==> disks == Abs(old(lines), old(disks))
      ensures !ok ==> exists i :: 0 <= i < LINES && !oks[i]
      ensures OnlyView(old(disks), Abs(old(lines), old(disks)), disks)
      ensures old(InOrder()) ==> InOrder()
    {
      ghost var abs := Abs(lines, disks);
      for i := 0 to LINES
        invariant Valid() && Abs(lines, disks) == abs && OnlyView(old(disks), abs, disks)
        invariant old(InOrder()) ==> InOrder()
        invariant forall j :: 0 <= j < i && lines[j].valid ==> !lines[j].dirty
      {
        var e := SyncLine(i, oks[i]);
        if e { return false; }
      }
      CleanIsView(lines, disks, writable);
      return true;
    }

    /** block_sync_dev */
    method SyncDev(d: nat, oks: seq<bool>) returns (ok: bool)
      requires Valid() && |oks| == LINES && d < |disks|
      modifies this`lines, this`disks
      ensures Valid() && Abs(lines, disks) == Abs(old(lines), old(disks))
      ensures ok ==> |disks| == |old(disks)| && disks[d] == Abs(old(lines), old(disks))[d]
      ensures !ok ==> exists i :: 0 <= i < LINES && !oks[i]
      ensures OnlyView(old(disks), Abs(old(lines), old(disks)), disks)
      ensures old(InOrder()) ==> InOrder()
    {
      ghost var abs := Abs(lines, disks);
      for i := 0 to LINES
        invariant Valid() && Abs(lines, disks) == abs && OnlyView(old(disks), abs, disks)
        invariant old(InOrder()) ==> InOrder()
        invariant forall j :: 0 <= j < i && lines[j].valid && lines[j].dev == d ==> !lines[j].dirty
      {
        if lines[i].dev == d {
          var e := SyncLine(i, oks[i]);
          if e { return false; }
        }
      }
      forall b | 0 <= b < |disks[d]|
        ensures disks[d][b] == Abs(lines, disks)[d][b]
      {
        CleanBlock(lines, disks, writable, d, b);
      }
      return true;
    }

    /** The loop over the lines for block b, when the blocks from lba on are saved before it. */
    method FlushBlock(d: nat, lba: nat, b: nat, oks: seq<bool>, ghost disks0: Disks,
                      ghost abs: Disks) returns (ok: bool)
      requires Valid() && |oks| == LINES && SameShape(disks0, abs) && lba <= b
      requires Abs(lines, disks) == abs && OnlyView(disks0, abs, disks) && SavedIn(lines, d, lba, b, LINES)
      modifies this`lines, this`disks
      ensures Valid() && Abs(lines, disks) == abs && OnlyView(disks0, abs, disks)
      ensures old(InOrder()) ==> InOrder()
      ensures ok ==> SavedIn(lines, d, lba, b, LINES) && SavedIn(lines, d, b, b + 1, LINES)
      ensures !ok ==> exists i :: 0 <= i < LINES && !oks[i]
    {
      for i := 0 to LINES
        invariant Valid() && Abs(lines, disks) == abs && OnlyView(disks0, abs, disks)
        invariant old(InOrder()) ==> InOrder()
        invariant SavedIn(lines, d, lba, b, LINES) && SavedIn(lines, d, b, b + 1, i)
      {
        if lines[i].dev == d && lines[i].lba == b {
          var e := SaveLine(d, lba, b, i, oks[i], disks0, abs);
          if e { return false; }
        }
      }
      return true;
    }

    method SaveLine(d: nat, lba: nat, b: nat, i: nat, ok: bool, ghost disks0: Disks, ghost abs: Disks) returns (e: bool)
      requires Valid() && i < LINES && SameShape(disks0, abs)
      requires Abs(lines, disks) == abs && OnlyView(disks0, abs, disks)
      requires SavedIn(lines, d, lba, b, LINES) && SavedIn(lines, d, b, b + 1, i)
      modifies this`lines, this`disks
      ensures Valid() && Abs(lines, disks) == abs && OnlyView(disks0, abs, disks) && (e ==> !ok)
      ensures old(InOrder()) ==> InOrder()
      ensures !e ==> SavedIn(lines, d, lba, b, LINES) && SavedIn(lines, d, b, b + 1, i + 1)
    {
      ghost var mid := disks;
      e := SyncLine(i, ok);
      OnlyViewTrans(disks0, abs, mid, disks);
    }

    /** block_flush of the blocks lba to lba + count - 1. */
    method Flush(d: nat, lba: nat, count: nat, oks: seq<bool>) returns (ok: bool)
      requires Valid() && |oks| == LINES && d < |disks| && lba + count <= |disks[d]|
      modifies this`lines, this`disks
      ensures Valid() && Abs(lines, disks) == Abs(old(lines), old(disks))
      ensures ok ==>
        && |disks| == |old(disks)| && lba + count <= |disks[d]|
        && disks[d][lba..lba + count] == Abs(old(lines), old(disks))[d][lba..lba + count]
      ensures !ok ==> exists i :: 0 <= i < LINES && !oks[i]
      ensures OnlyView(old(disks), Abs(old(lines), old(disks)), disks)
      ensures old(InOrder()) ==> InOrder()
    {
      ghost var abs := Abs(lines, disks);
      for k := 0 to count
        invariant Valid() && Abs(lines, disks) == abs && OnlyView(old(disks), abs, disks)
        invariant old(InOrder()) ==> InOrder()
        invariant SavedIn(lines, d, lba, lba + k, LINES)
      {
        var saved := FlushBlock(d, lba, lba + k, oks, old(disks), abs);
        if !saved { return false; }
        SavedOneMore(lines, d, lba, lba + k);
      }
      forall b | lba <= b < lba + count ensures disks[d][b] == abs[d][b] { CleanBlock(lines, disks, writable, d, b); }
      return true;
    }

    /** The loop body of block_try_sync. */
    method MarkClean(i: nat, oks: seq<bool>)
      requires i < |lines| && i < |oks| && (lines[i].valid ==> InDisks(disks, lines[i].dev, lines[i].lba))
      modifies this`lines, this`disks
      ensures lines == CleanLine(old(lines), i) && disks == CleanDisks(old(lines), old(disks), oks, i)
    {
      if lines[i].valid && lines[i].dirty {
        if oks[i] {
          disks := Store(disks, lines[i].dev, lines[i].lba, lines[i].data);
        }
        lines := lines[i := lines[i].(dirty := false)];
      }
    }

    /** block_try_sync marks every line clean, whatever its device answered. The cache is in order
        afterwards exactly if every line whose write was refused already equals its block. */
    method TrySync(locked: bool, oks: seq<bool>) returns (ran: bool)
      requires Valid() && |oks| == LINES
      modifies this`lines, this`disks
      ensures ran == !locked && (locked ==> lines == old(lines) && disks == old(disks))
      ensures ran ==> (WellFormed(lines, disks, writable) <==> NoLoss(old(lines), old(disks), oks, LINES))
      ensures ran && NoLoss(old(lines), old(disks), oks, LINES) ==>
        disks == Abs(lines, disks) == Abs(old(lines), old(disks))
      ensures old(InOrder()) ==> InOrder()
    {
      if locked { return false; }
      for i := 0 to LINES
        invariant Cleaned(old(lines), old(disks), oks, lines, disks, i)
        invariant NoLoss(old(lines), old(disks), oks, i) ==>
          WellFormed(lines, disks, writable) && Abs(lines, disks) == Abs(old(lines), old(disks))
      {
        CleanStep(old(lines), old(disks), writable, oks, lines, disks, i);
        MarkClean(i, oks);
      }
      CleanEnd(old(lines), old(disks), writable, oks, lines, disks);
      if old(InOrder()) { SameTimesDated(old(lines), lines, clock, uses); }
      return true;
    }
  }

  // ----- Where coherence ends -----

  function Filled(w: word): Sector {
    seq(SECTOR_WORDS, _ => w)
  }

  function FreshLines(): (r: seq<Line>)
    ensures |r| == LINES && forall i :: 0 <= i < LINES ==> r[i] == Line(0, 0, Filled(0), false, false, 0)
  {
    seq(LINES, _ => Line(0, 0, Filled(0), false, false, 0))
  }

  /** A device block of ones, an empty cache, and a read the device refuses: the next read would
      be answered with zeros. */
  lemma FailedReadExample()
    ensures var disks: Disks := [[Filled(1)]];
      var lines' := FreshLines()[0 := Line(0, 0, FreshLines()[0].data, true, false, 1)];
      && WellFormed(FreshLines(), disks, [true]) && !WellFormed(lines', disks, [true])
      && InDisks(disks, 0, 0) && View(lines', disks, 0, 0) != disks[0][0]
  {
    var disks: Disks := [[Filled(1)]];
    var lines' := FreshLines()[0 := Line(0, 0, FreshLines()[0].data, true, false, 1)];
    assert Filled(0)[0] != Filled(1)[0];
    assert !LineOk(lines'[0], disks, [true]);
    assert Matches(lines'[0], 0, 0);
    forall j | 0 <= j < LINES && Matches(lines'[j], 0, 0) ensures j == 0 {}
  }

  /** One dirty line and a device that refuses its write: block_try_sync calls it clean. */
  lemma TrySyncExample()
    ensures var disks: Disks := [[Filled(1)]];
      var lines := FreshLines()[0 := Line(0, 0, Filled(0), true, true, 1)];
      WellFormed(lines, disks, [true]) && !NoLoss(lines, disks, seq(LINES, _ => false), LINES)
  {
    var disks: Disks := [[Filled(1)]];
    var lines := FreshLines()[0 := Line(0, 0, Filled(0), true, true, 1)];
    assert Filled(0)[0] != Filled(1)[0];
    assert Loses(lines, disks, seq(LINES, _ => false), 0);
  }

  // ----- Sequences of operations -----

  datatype Op =
    | OpRead(d: nat, lba: nat, count: nat, oks: seq<bool>)
    | OpWrite(d: nat, lba: nat, data: seq<Sector>, oks: seq<bool>)
    | OpSync(oks: seq<bool>)
    | OpSyncDev(d: nat, oks: seq<bool>)
    | OpFlush(d: nat, lba: nat, count: nat, oks: seq<bool>)

  datatype Out = Blocks(r: Result<seq<Sector>>) | Written(n: nat) | Done(ok: bool)

  /** What clients see and what the devices hold. */
  datatype State = State(view: Disks, disks: Disks)

  /** The requests the devices can serve. */
  predicate OpOk(op: Op, disks: Disks, writable: seq<bool>) {
    match op
    case OpRead(d, lba, count, oks) => d < |disks| && lba + count <= |disks[d]| && |oks| == count
    case OpWrite(d, lba, data, oks) =>
      d < |disks| && lba + |data| <= |disks[d]| && |oks| == |data| && d < |writable| && writable[d]
    case OpSync(oks) => |oks| == LINES
    case OpSyncDev(d, oks) => d < |disks| && |oks| == LINES
    case OpFlush(d, lba, count, oks) => d < |disks| && lba + count <= |disks[d]| && |oks| == LINES
  }

  /** Some device write was refused. */
  ghost predicate Refusal(oks: seq<bool>) {
    exists k :: 0 <= k < |oks| && !oks[k]
  }

  /** What a request does to the view and what it answers. A read returns what is there and a
      write stores its blocks, one after the other; they stop short only at a refused device
      write, and only one makes a sync fail. */
  ghost predicate ViewStep(view: Disks, view': Disks, op: Op, out: Out, writable: seq<bool>) {
    && OpOk(op, view, writable)
    && match op
       case OpRead(d, lba, count, oks) =>
         && view' == view && out.Blocks?
         && (if out.r.Ok? then out.r.value == view[d][lba..lba + count] else Refusal(oks))
       case OpWrite(d, lba, data, oks) =>
         && out.Written? && out.n <= |data| && (out.n < |data| ==> !oks[out.n])
         && view' == StoreAll(view, d, lba, data[..out.n])
       case _ => view' == view && out.Done? && (!out.ok ==> Refusal(op.oks))
  }

  /** What a successful sync or flush means for the devices. */
  ghost predicate Saved(view: Disks, disks: Disks, op: Op)
    requires SameShape(view, disks)
  {
    match op
    case OpSync(_) => disks == view
    case OpSyncDev(d, _) => d < |view| && disks[d] == view[d]
    case OpFlush(d, lba, count, _) =>
      d < |view| && lba + count <= |view[d]| && disks[d][lba..lba + count] == view[d][lba..lba + count]
    case _ => true
  }

  /** One request: the view changes as plain devices would, each device block stays or receives
      what clients see there, and a successful sync brings the devices up to the view. */
  ghost predicate Step(s: State, s': State, op: Op, out: Out, writable: seq<bool>) {
    && SameShape(s.disks, s.view) && ViewStep(s.view, s'.view, op, out, writable)
    && OnlyViews(s.disks, s.view, s'.view, s'.disks)
    && (out == Done(true) ==> Saved(s.view, s'.disks, op))
  }

  /** The run of requests `ops` with answers `outs` through `states`. */
  ghost predicate Run(states: seq<State>, ops: seq<Op>, outs: seq<Out>, writable: seq<bool>) {
    && |states| == |ops| + 1 && |outs| == |ops|
    && forall i :: 0 <= i < |ops| ==> Step(states[i], states[i + 1], ops[i], outs[i], writable)
  }

  method Execute(c: Cache, op: Op) returns (out: Out)
    requires c.Valid() && OpOk(op, c.disks, c.writable)
    modifies c
    ensures c.Valid() && SameShape(old(c.disks), c.disks) && (old(c.InOrder()) ==> c.InOrder())
    ensures Step(State(Abs(old(c.lines), old(c.disks)), old(c.disks)), State(Abs(c.lines, c.disks), c.disks), op, out,
      c.writable)
  {
    match op
    case OpRead(d, lba, count, oks) =>
      var r := c.Read(d, lba, count, oks);
      out := Blocks(r);
    case OpWrite(d, lba, data, oks) =>
      var n := c.Write(d, lba, data, oks);
      out := Written(n);
    case OpSync(oks) =>
      var ok := c.Sync(oks);
      out := Done(ok);
    case OpSyncDev(d, oks) =>
      var ok := c.SyncDev(d, oks);
      out := Done(ok);
    case OpFlush(d, lba, count, oks) =>
      var ok := c.Flush(d, lba, count, oks);
      out := Done(ok);
  }

  /** Coherence: every sequence of requests, with any pattern of refused device writes, returns
      what plain devices would and leaves the view where plain devices would end, while the
      devices follow the view. */
  method RunAll(c: Cache, ops: seq<Op>) returns (outs: seq<Out>, ghost states: seq<State>)
    requires c.Valid() && forall i :: 0 <= i < |ops| ==> OpOk(ops[i], c.disks, c.writable)
    modifies c
    ensures c.Valid() && Run(states, ops, outs, c.writable) && (old(c.InOrder()) ==> c.InOrder())
    ensures states[0] == State(Abs(old(c.lines), old(c.disks)), old(c.disks))
    ensures states[|ops|] == State(Abs(c.lines, c.disks), c.disks)
  {
    outs, states := [], [State(Abs(c.lines, c.disks), c.disks)];
    for k := 0 to |ops|
      invariant c.Valid() && SameShape(old(c.disks), c.disks) && (old(c.InOrder()) ==> c.InOrder())
      invariant |states| == k + 1 && |outs| == k && states[k] == State(Abs(c.lines, c.disks), c.disks)
      invariant states[0] == State(Abs(old(c.lines), old(c.disks)), old(c.disks))
      invariant forall i :: 0 <= i < k ==> Step(states[i], states[i + 1], ops[i], outs[i], c.writable)
    {
      ShapeOk(ops[k], old(c.disks), c.disks, c.writable);
      var out := Execute(c, ops[k]);
      outs, states := outs + [out], states + [State(Abs(c.lines, c.disks), c.disks)];
    }
  }

  lemma ShapeOk(op: Op, disks: Disks, disks': Disks, writable: seq<bool>)
    requires SameShape(disks, disks') && OpOk(op, disks, writable)
    ensures OpOk(op, disks', writable)
  {
  }
}
