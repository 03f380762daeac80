/** The block device below the journal: an array of 512-byte sectors, each written
    atomically. A crash can fall between any two sector writes, so the states a crash
    can leave behind are exactly the prefixes of the sequence of writes. */
module Device {
  import opened Seqs

  const WORD_LIMIT := 0x1_0000_0000
  const SECTOR_WORDS := 128

  type word = x: int | 0 <= x < WORD_LIMIT

  /** A sector seen as its 128 little words, the unit every journal structure is laid out in. */
  type Sector = s: seq<word> | |s| == SECTOR_WORDS witness seq(SECTOR_WORDS, _ => 0)

  datatype Write = Put(lba: nat, data: Sector)

  predicate InRange(ws: seq<Write>, size: nat) {
    forall i :: 0 <= i < |ws| ==> ws[i].lba < size
  }

  ghost predicate Touches(ws: seq<Write>, lba: nat) {
    exists i :: 0 <= i < |ws| && ws[i].lba == lba
  }

  /** The device after a sequence of sector writes, in order. */
  function Apply(d: seq<Sector>, ws: seq<Write>): (r: seq<Sector>)
    requires InRange(ws, |d|)
    ensures |r| == |d|
    decreases |ws|
  {
    if ws == [] then d
    else
      var last := ws[|ws| - 1];
      Apply(d, ws[..|ws| - 1])[last.lba := last.data]
  }

  lemma {:induction false} ApplyConcat(d: seq<Sector>, a: seq<Write>, b: seq<Write>)
    requires InRange(a, |d|) && InRange(b, |d|)
    ensures InRange(a + b, |d|)
    ensures Apply(d, a + b) == Apply(Apply(d, a), b)
    decreases |b|
  {
    if b == [] {
      assert a + b == a;
    } else {
      var n := |b| - 1;
      ApplyConcat(d, a, b[..n]);
      assert (a + b)[..|a + b| - 1] == a + b[..n];
    }
  }

  lemma ConcatAssoc(a: seq<Write>, b: seq<Write>, c: seq<Write>)
    ensures a + b + c == a + (b + c)
  {
  }

  lemma ApplySnoc(d: seq<Sector>, ws: seq<Write>, w: Write)
    requires InRange(ws, |d|) && w.lba < |d|
    ensures InRange(ws + [w], |d|)
    ensures Apply(d, ws + [w]) == Apply(d, ws)[w.lba := w.data]
  {
    assert (ws + [w])[..|ws|] == ws;
  }

  lemma {:induction false} ApplyStep(d: seq<Sector>, ws: seq<Write>, k: nat)
    requires InRange(ws, |d|) && k < |ws|
    ensures InRange(ws[..k], |d|) && InRange(ws[..k + 1], |d|)
    ensures Apply(d, ws[..k + 1]) == Apply(d, ws[..k])[ws[k].lba := ws[k].data]
  {
    assert ws[..k + 1][..k] == ws[..k];
  }

  /** A crash inside two consecutive write lists falls in the first or, after it, in the second. */
  lemma ApplyCut(d: seq<Sector>, a: seq<Write>, b: seq<Write>, k: nat)
    requires InRange(a, |d|) && InRange(b, |d|) && k <= |a| + |b|
    ensures InRange(a + b, |d|)
    ensures Apply(d, (a + b)[..k]) ==
      if k <= |a| then Apply(d, a[..k]) else Apply(Apply(d, a), b[..k - |a|])
  {
    TakeConcat(a, b, k);
    if k > |a| { ApplyConcat(d, a, b[..k - |a|]); }
  }

  lemma ApplyCutThree(d: seq<Sector>, a: seq<Write>, b: seq<Write>, c: seq<Write>, k: nat)
    requires InRange(a, |d|) && InRange(b, |d|) && InRange(c, |d|) && k <= |a| + |b| + |c|
    ensures InRange(a + b + c, |d|)
    ensures Apply(d, (a + b + c)[..k]) ==
      if k <= |a| then Apply(d, a[..k])
      else if k <= |a| + |b| then Apply(Apply(d, a), b[..k - |a|])
      else Apply(Apply(Apply(d, a), b), c[..k - |a| - |b|])
  {
    ApplyConcat(d, a, b);
    ApplyCut(d, a + b, c, k);
    if k <= |a| + |b| { ApplyCut(d, a, b, k); }
  }

  /** A sector no write touches keeps its contents. */
  lemma {:induction false} ApplyFrame(d: seq<Sector>, ws: seq<Write>, x: nat)
    requires InRange(ws, |d|) && x < |d| && !Touches(ws, x)
    ensures Apply(d, ws)[x] == d[x]
    decreases |ws|
  {
    if ws != [] {
      var init := ws[..|ws| - 1];
      assert ws[|ws| - 1].lba != x;
      ApplyFrame(d, init, x);
    }
  }

  /** Whatever two devices held in a sector the writes touch, afterwards they agree on it. */
  lemma {:induction false} ApplyAgree(d: seq<Sector>, e: seq<Sector>, ws: seq<Write>, x: nat)
    requires |d| == |e| && InRange(ws, |d|) && x < |d|
    requires d[x] == e[x] || Touches(ws, x)
    ensures Apply(d, ws)[x] == Apply(e, ws)[x]
    decreases |ws|
  {
    if ws != [] && ws[|ws| - 1].lba != x {
      var init := ws[..|ws| - 1];
      if Touches(ws, x) {
        var i :| 0 <= i < |ws| && ws[i].lba == x;
        assert init[i].lba == x;
      }
      ApplyAgree(d, e, init, x);
    }
  }

  /** Redoing a write list from the start after any part of it has been applied gives the
      same device as doing it once: replay is idempotent at every crash point. */
  lemma RedoAfterPrefix(d: seq<Sector>, ws: seq<Write>, k: nat)
    requires InRange(ws, |d|) && k <= |ws|
    ensures InRange(ws[..k], |d|)
    ensures Apply(Apply(d, ws[..k]), ws) == Apply(d, ws)
  {
    var part := Apply(d, ws[..k]);
    forall x: nat | x < |d| ensures Apply(part, ws)[x] == Apply(d, ws)[x] {
      if Touches(ws[..k], x) {
        var i :| 0 <= i < k && ws[..k][i].lba == x;
        assert ws[i].lba == x;
      } else {
        ApplyFrame(d, ws[..k], x);
      }
      ApplyAgree(part, d, ws, x);
    }
  }

  /** The device object. `trace` records every sector write since the object was made. */
  class BlockDev {
    var sectors: seq<Sector>
    ghost var trace: seq<Write>

    constructor (contents: seq<Sector>)
      ensures sectors == contents && trace == []
    {
      sectors := contents;
      trace := [];
    }

    method Read(lba: nat) returns (s: Sector)
      requires lba < |sectors|
      ensures s == sectors[lba]
    {
      s := sectors[lba];
    }

    method Write(lba: nat, s: Sector)
      requires lba < |sectors|
      modifies this
      ensures sectors == old(sectors)[lba := s]
      ensures trace == old(trace) + [Put(lba, s)]
    {
      sectors := sectors[lba := s];
      trace := trace + [Put(lba, s)];
    }
  }
}
