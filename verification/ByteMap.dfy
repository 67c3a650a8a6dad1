/** The search for a free entry in a byte map on disk, as Simple_File_System/src/sfs.c does it: block
    by block, through a buffer that holds one block. */
module ByteMap {

  type Byte = x: int | -128 <= x < 128     // a C char

  const BLOCK_SIZE: nat := 512
  const ENTRIES: nat := 5000

  // ---------- the flat search ----------

  /** The first entry from `from` on that is not marked, or ENTRIES. */
  function Search(m: seq<Byte>, from: nat): (i: nat)
    requires |m| == ENTRIES && from <= ENTRIES
    ensures from <= i <= ENTRIES && (i < ENTRIES ==> m[i] != 1) && forall k :: from <= k < i ==> m[k] == 1
    decreases ENTRIES - from
  {
    if from < ENTRIES && m[from] == 1 then Search(m, from + 1) else from
  }

  /** The order is start, start + 1, ..., the last entry, and then 1, 2, ...: entry 0 is looked at
      only if the search starts there. */
  function FirstFree(m: seq<Byte>, start: nat): nat
    requires |m| == ENTRIES && start < ENTRIES
  {
    var i := Search(m, start);
    if i < ENTRIES then i else Search(m, 1)
  }

  predicate Findable(m: seq<Byte>, start: nat)
    requires |m| == ENTRIES && start < ENTRIES
  {
    (exists i :: 1 <= i < ENTRIES && m[i] != 1) || (start == 0 && m[0] != 1)
  }

  lemma FindableIff(m: seq<Byte>, start: nat)
    requires |m| == ENTRIES && start < ENTRIES
    ensures Findable(m, start) <==> FirstFree(m, start) < ENTRIES
    ensures Findable(m, start) ==> m[FirstFree(m, start)] != 1
  {
  }

  // ---------- the order in which entries are probed ----------

  function After(p: nat): (q: nat)
    requires p < ENTRIES
    ensures q < ENTRIES
  {
    if p == ENTRIES - 1 then 1 else p + 1
  }

  /** The entry that is probed after k others. */
  function Probe(start: nat, k: nat): (p: nat)
    requires start < ENTRIES
    ensures p < ENTRIES
  {
    if k == 0 then start else After(Probe(start, k - 1))
  }

  lemma {:induction false} ProbeAt(start: nat, k: nat)
    requires start < ENTRIES
    ensures start + k < ENTRIES ==> Probe(start, k) == start + k
    ensures ENTRIES <= start + k < 2 * ENTRIES - 1 ==> Probe(start, k) == start + k - ENTRIES + 1
    ensures k > 0 ==> Probe(start, k) > 0
  {
    if k > 0 {
      ProbeAt(start, k - 1);
    }
  }

  /** Probing comes to a free entry exactly when there is one besides entry 0, or the search starts
      at entry 0 and that is free; otherwise it goes round for ever. */
  lemma ProbingEndsIff(m: seq<Byte>, start: nat)
    requires |m| == ENTRIES && start < ENTRIES
    ensures (exists k: nat :: m[Probe(start, k)] != 1) <==> Findable(m, start)
  {
    if k: nat :| m[Probe(start, k)] != 1 {
      ProbeAt(start, k);
    }
    if Findable(m, start) {
      var k := FirstFreeIsProbed(m, start);
    }
  }

  /** On a map with no free entry but entry 0, a search that starts elsewhere goes round for ever; on a
      full map every search does. */
  lemma FullMapNeverEnds(m: seq<Byte>, start: nat, k: nat)
    requires |m| == ENTRIES && start < ENTRIES && forall i :: 1 <= i < ENTRIES ==> m[i] == 1
    requires start > 0 || m[0] == 1
    ensures m[Probe(start, k)] == 1
  {
    ProbingEndsIff(m, start);
  }

  /** The flat search finds what probing comes to first. */
  lemma FirstFreeIsProbed(m: seq<Byte>, start: nat) returns (k: nat)
    requires |m| == ENTRIES && start < ENTRIES && Findable(m, start)
    ensures Probe(start, k) == FirstFree(m, start) && m[Probe(start, k)] != 1
    ensures forall j: nat :: j < k ==> m[Probe(start, j)] == 1
  {
    FindableIff(m, start);
    var q := FirstFree(m, start);
    k := Ahead(start, q);
    ProbeAt(start, k);
    forall j: nat | j < k ensures m[Probe(start, j)] == 1 {
      ProbeAt(start, j);
    }
  }

  /** Which entry is found, in the program's own numbers: the first free one from `start` to 4999, or if
      there is none the first free one from 1 on. */
  lemma FoundIs(m: seq<Byte>, start: nat, r: nat)
    requires |m| == 5000 && start < 5000 && r < 5000
    ensures r == FirstFree(m, start) <==>
            && m[r] != 1
            && if r >= start then forall k :: start <= k < r ==> m[k] == 1
               else r >= 1 && (forall k :: start <= k < 5000 ==> m[k] == 1) && forall k :: 1 <= k < r ==> m[k] == 1
    ensures FirstFree(m, start) < 5000 <==> m[start] != 1 || exists i :: 1 <= i < 5000 && m[i] != 1
  {
    FindableIff(m, start);
  }

  /** How many entries are probed before p. */
  function Ahead(start: nat, p: nat): (n: nat)
    requires start < ENTRIES && p < ENTRIES
    ensures p == start ==> n == 0
  {
    if p >= start then p - start else ENTRIES - start + p - if p > 0 then 1 else 0
  }

  /** A marked entry leads on, and no further than to the entry of the flat search. */
  lemma ProbeOn(m: seq<Byte>, start: nat, p: nat)
    requires |m| == ENTRIES && start < ENTRIES && Findable(m, start) && p < ENTRIES && (p > 0 || start == 0)
    requires FirstFree(m, start) < ENTRIES && Ahead(start, p) <= Ahead(start, FirstFree(m, start)) && m[p] == 1
    ensures After(p) > 0 && Ahead(start, p) < Ahead(start, After(p)) <= Ahead(start, FirstFree(m, start))
  {
    FindableIff(m, start);
  }

  /** A free entry is that of the flat search. */
  lemma ProbeHit(m: seq<Byte>, start: nat, p: nat)
    requires |m| == ENTRIES && start < ENTRIES && Findable(m, start) && p < ENTRIES && (p > 0 || start == 0)
    requires FirstFree(m, start) < ENTRIES && Ahead(start, p) <= Ahead(start, FirstFree(m, start)) && m[p] != 1
    ensures p == FirstFree(m, start)
  {
  }

  // ---------- on disk ----------

  function Offset(kind: int): nat {
    if kind == 0 then 0 else 10
  }

  ghost predicate WholeBlocks(blocks: seq<seq<Byte>>) {
    |blocks| >= 20 && forall b :: 0 <= b < |blocks| ==> |blocks[b]| == BLOCK_SIZE
  }

  /** The byte map in the ten blocks from `offset` on, as one sequence. */
  ghost function MapOf(blocks: seq<seq<Byte>>, offset: nat): (m: seq<Byte>)
    requires WholeBlocks(blocks) && offset <= 10
    ensures |m| == ENTRIES
  {
    seq(ENTRIES, i requires 0 <= i < ENTRIES => blocks[offset + i / BLOCK_SIZE][i % BLOCK_SIZE])
  }

  /** The inodes' entries lie in blocks 0 to 9, those of the data blocks in blocks 10 to 19. */
  lemma EntriesAre(blocks: seq<seq<Byte>>, kind: int, i: nat)
    requires WholeBlocks(blocks) && i < 5000
    ensures var b := if kind == 0 then i / 512 else 10 + i / 512;
            && (if kind == 0 then b < 10 else 10 <= b < 20) && b < |blocks| && |blocks[b]| == 512
            && MapOf(blocks, Offset(kind))[i] == blocks[b][i % 512]
  {
  }

  class Disk {
    var blocks: seq<seq<Byte>>

    ghost predicate Valid()
      reads this
    {
      WholeBlocks(blocks)
    }

    /** The byte map of a kind: of the inodes if 0, else of the data blocks. */
    ghost function Map(kind: int): (m: seq<Byte>)
      reads this
      requires Valid()
      ensures |m| == ENTRIES
    {
      MapOf(blocks, Offset(kind))
    }

    method Read(b: nat, buf: array<Byte>)
      requires Valid() && b < |blocks| && buf.Length == BLOCK_SIZE
      modifies buf
      ensures buf[..] == blocks[b]
    {
      var i := 0;
      while i < BLOCK_SIZE
        invariant 0 <= i <= BLOCK_SIZE && buf[..i] == blocks[b][..i]
      {
        buf[i] := blocks[b][i];
        i := i + 1;
      }
    }

    method Write(b: nat, buf: array<Byte>)
      requires Valid() && b < |blocks| && buf.Length == BLOCK_SIZE
      modifies this
      ensures Valid() && blocks == old(blocks)[b := buf[..]]
    {
      blocks := blocks[b := buf[..]];
    }

    /** Have the block with entry pos in the buffer: it is read only if the buffer holds another one.
        At every probe the buffer equals its block on disk. */
    method Fetch(offset: nat, pos: nat, currBlock: int, temp: array<Byte>) returns (block: nat, buf: array<Byte>)
      requires Valid() && offset <= 10 && pos < ENTRIES && -1 <= currBlock < 10 && temp.Length == BLOCK_SIZE
      requires currBlock >= 0 ==> temp[..] == blocks[offset + currBlock]
      ensures block == pos / BLOCK_SIZE && block < 10 && buf.Length == BLOCK_SIZE
      ensures buf[..] == blocks[offset + block]
      ensures buf[pos % BLOCK_SIZE] == MapOf(blocks, offset)[pos]
      ensures if block == currBlock then buf == temp else fresh(buf)
    {
      block := BlockOf(pos);
      buf := temp;
      if block != currBlock {
        buf := new Byte[BLOCK_SIZE](_ => 0);
        Read(offset + block, buf);
      }
      EntryAt(blocks, offset, pos);
      assert buf[..][pos % BLOCK_SIZE] == MapOf(blocks, offset)[pos];
    }

    /** Find a free entry, mark it on disk and return it.  The caller's random start is a parameter. */
    method GetFreeEntry(kind: int, start: nat) returns (pos: nat)
      requires Valid() && start < ENTRIES && Findable(Map(kind), start)
      modifies this
      ensures Valid()
      ensures pos == FirstFree(old(Map(kind)), start) < ENTRIES
      ensures Map(kind) == old(Map(kind))[pos := 1]
      ensures forall other: int :: Offset(other) != Offset(kind) ==> Map(other) == old(Map(other))
      ensures pos < 5000 && |blocks| >= 20
      ensures var b := (if kind == 0 then 0 else 10) + pos / 512;
              blocks == old(blocks)[b := old(blocks)[b][pos % 512 := 1]]
    {
      hide Ahead, FirstFree, Findable, MapOf, WholeBlocks;
      ghost var m := Map(kind);
      ghost var q := FirstFree(m, start);
      FindableIff(m, start);
      SizesOf(blocks);
      var offset := Offset(kind);
      var currBlock: int := -1;
      var temp := new Byte[BLOCK_SIZE](_ => 0);
      pos := start;
      while true
        invariant pos < ENTRIES && Valid() && blocks == old(blocks) && fresh(temp) && temp.Length == BLOCK_SIZE
        invariant -1 <= currBlock < 10
        invariant currBlock >= 0 ==> temp[..] == blocks[offset + currBlock]
        invariant (pos > 0 || start == 0) && q < ENTRIES && Ahead(start, pos) <= Ahead(start, q)
        decreases Ahead(start, q) - Ahead(start, pos)
      {
        currBlock, temp := Fetch(offset, pos, currBlock, temp);
        if temp[pos % BLOCK_SIZE] == 1 {
          ProbeOn(m, start, pos);
          pos := if pos == ENTRIES - 1 then 1 else pos + 1;
        } else {
          ProbeHit(m, start, pos);
          temp[pos % BLOCK_SIZE] := 1;
          break;
        }
      }
      Write(offset + currBlock, temp);
      OneByteChanged(old(blocks), offset, 10 - offset, pos);
    }
  }

  /** The loop that divides by the block size. */
  method BlockOf(p: nat) returns (b: nat)
    ensures b == p / BLOCK_SIZE
  {
    b := 1;
    while BLOCK_SIZE * b <= p
      invariant b >= 1 && BLOCK_SIZE * (b - 1) <= p
    {
      b := b + 1;
    }
    b := b - 1;
  }

  lemma SizesOf(blocks: seq<seq<Byte>>)
    requires WholeBlocks(blocks)
    ensures |blocks| >= 20 && forall b :: 0 <= b < |blocks| ==> |blocks[b]| == BLOCK_SIZE
  {
  }

  lemma EntryAt(blocks: seq<seq<Byte>>, offset: nat, i: nat)
    requires WholeBlocks(blocks) && offset <= 10 && i < ENTRIES
    ensures |blocks| >= 20 && |blocks[offset + i / BLOCK_SIZE]| == BLOCK_SIZE
    ensures MapOf(blocks, offset)[i] == blocks[offset + i / BLOCK_SIZE][i % BLOCK_SIZE]
  {
  }

  /** Changing one byte of one block changes one entry of one map. */
  lemma OneByteChanged(blocks: seq<seq<Byte>>, offset: nat, other: nat, pos: nat)
    requires WholeBlocks(blocks) && pos < ENTRIES && offset <= 10 && other <= 10
    requires offset + 10 <= other || other + 10 <= offset
    ensures var b := offset + pos / BLOCK_SIZE;
            var after := blocks[b := blocks[b][pos % BLOCK_SIZE := 1]];
            MapOf(after, offset) == MapOf(blocks, offset)[pos := 1] && MapOf(after, other) == MapOf(blocks, other)
  {
    var b := offset + pos / BLOCK_SIZE;
    var after := blocks[b := blocks[b][pos % BLOCK_SIZE := 1]];
    forall i | 0 <= i < ENTRIES
      ensures MapOf(after, offset)[i] == MapOf(blocks, offset)[pos := 1][i] && MapOf(after, other)[i] == MapOf(blocks, other)[i]
    {
      assert i / BLOCK_SIZE == pos / BLOCK_SIZE && i % BLOCK_SIZE == pos % BLOCK_SIZE ==> i == pos;
    }
  }
}
