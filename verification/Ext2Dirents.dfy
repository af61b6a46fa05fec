/** Directory blocks: chains of variable-length records
    (kernel/ext2.c:109-115 and 452-466). */
module Ext2Dirents {
  import opened Machine
  import opened Ext2Blocks

  type Name = seq<Byte>

  /** What a record means to the rest of the system. */
  datatype Entry = Entry(name: Name, ino: nat)

  function RecLen(b: Block, off: nat): nat requires off + 8 <= 1024 { U16(b, off + 4) }
  function NameLen(b: Block, off: nat): nat requires off + 8 <= 1024 { U16(b, off + 6) }

  /** A record of `len` bytes at `off`, holding `n` name bytes, fits below `limit`. */
  predicate FieldsOk(len: nat, n: nat, off: nat, limit: nat)
  {
    && 8 <= len
    && len % 4 == 0
    && off + len <= limit
    && n <= len - 8
    && n <= 255
  }

  /** The record header at `off` can be trusted inside [0, limit). */
  predicate RecOk(b: Block, off: nat, limit: nat)
  {
    && off + 8 <= limit <= 1024
    && FieldsOk(RecLen(b, off), NameLen(b, off), off, limit)
  }

  function EntryAt(b: Block, off: nat, limit: nat): Entry
    requires RecOk(b, off, limit)
  {
    Entry(b[off + 8..off + 8 + NameLen(b, off)], U32(b, off))
  }

  /** Entries in use from `off` on; a corrupt record ends the scan. */
  function Entries(b: Block, off: nat, limit: nat): seq<Entry>
    decreases 1024 - off
  {
    if !RecOk(b, off, limit) then []
    else
      var rest := Entries(b, off + RecLen(b, off), limit);
      if U32(b, off) == 0 then rest else [EntryAt(b, off, limit)] + rest
  }

  /** Records tile [off, limit) exactly. */
  predicate Chain(b: Block, off: nat, limit: nat)
    decreases 1024 - off
  {
    off == limit || (RecOk(b, off, limit) && Chain(b, off + RecLen(b, off), limit))
  }

  /** Offset `off` is the start of a record of the chain beginning at `from`. */
  predicate OnChain(b: Block, from: nat, off: nat, limit: nat)
    decreases 1024 - from
  {
    from == off || (from < off && RecOk(b, from, limit) && OnChain(b, from + RecLen(b, from), off, limit))
  }

  /** First match wins; 0 means absent. */
  function Find(es: seq<Entry>, name: Name): nat
  {
    if es == [] then 0
    else if es[0].name == name then es[0].ino
    else Find(es[1..], name)
  }

  /** Bytes a record needs for an n-byte name: header and name, rounded up to a multiple of four. */
  function RecSize(n: nat): (r: nat)
    ensures r % 4 == 0 && 8 + n <= r < 8 + n + 4
  {
    (8 + n + 3) / 4 * 4
  }

  function Header(ino: nat, reclen: nat, name: Name): (s: seq<Byte>)
    requires ino < TWO32 && reclen < 65536 && |name| <= 255
    ensures |s| == 8 + |name|
  {
    Bytes4(ino) + Bytes2(reclen) + Bytes2(|name|) + name
  }

  /** The block with one record filling it (a directory's fresh block). */
  function OneRecord(ino: nat, name: Name): Block
    requires ino < TWO32 && |name| <= 255
  {
    Splice(Zero(), 0, Header(ino, 1024, name))
  }

  /** Shrink the record at `off` to its own size and put a new one after it. */
  function Split(b: Block, off: nat, ino: nat, name: Name): Block
    requires off + 8 <= 1024 && ino < TWO32 && |name| <= 255
    requires off + RecLen(b, off) <= 1024
    requires RecSize(NameLen(b, off)) + RecSize(|name|) <= RecLen(b, off)
  {
    Splice(Splice(b, off + 4, Bytes2(RecSize(NameLen(b, off)))), off + RecSize(NameLen(b, off)),
           Header(ino, RecLen(b, off) - RecSize(NameLen(b, off)), name))
  }

  /** A valid record at `off` runs to `next` and reads as e. */
  predicate Record(b: Block, off: nat, limit: nat, next: nat, e: Entry)
  {
    RecOk(b, off, limit) && off + RecLen(b, off) == next && EntryAt(b, off, limit) == e
  }

  lemma EntriesCons(b: Block, off: nat, limit: nat, next: nat, e: Entry)
    requires Record(b, off, limit, next, e)
    ensures Entries(b, off, limit) == (if e.ino == 0 then [] else [e]) + Entries(b, next, limit)
  {
    hide RecOk, RecLen, EntryAt, U32;
    EntryIno(b, off, limit);
  }

  lemma EntryIno(b: Block, off: nat, limit: nat)
    requires RecOk(b, off, limit)
    ensures off + 4 <= 1024 && EntryAt(b, off, limit).ino == U32(b, off)
  {}

  /** A record in place is at least eight bytes long and stays in the block. */
  lemma RecordRuns(b: Block, off: nat, limit: nat)
    requires RecOk(b, off, limit)
    ensures off + 8 <= 1024 && 8 <= RecLen(b, off) && off + RecLen(b, off) <= limit <= 1024
  {}

  lemma EntriesStop(b: Block, off: nat, limit: nat)
    requires !RecOk(b, off, limit)
    ensures Entries(b, off, limit) == []
  {}

  lemma ChainCons(b: Block, off: nat, limit: nat, next: nat, e: Entry)
    requires Record(b, off, limit, next, e)
    ensures Chain(b, off, limit) == Chain(b, next, limit)
  {}

  lemma EntriesEnd(b: Block, limit: nat)
    ensures Entries(b, limit, limit) == [] && Chain(b, limit, limit)
  {}

  lemma SubSlice(b: Block, off: nat, h: seq<Byte>, i: nat, j: nat)
    requires off + |h| <= 1024 && b[off..off + |h|] == h && i <= j <= |h|
    ensures b[off + i..off + j] == h[i..j]
  {
    forall x | i <= x < j
      ensures b[off + x] == h[x]
    {
      assert b[off..off + |h|][x] == b[off + x];
    }
  }

  lemma HeaderReadsBack(b: Block, off: nat, ino: nat, reclen: nat, name: Name)
    requires ino < TWO32 && reclen < 65536 && |name| <= 255
    requires off + 8 + |name| <= 1024
    requires b[off..off + 8 + |name|] == Header(ino, reclen, name)
    ensures U32(b, off) == ino && RecLen(b, off) == reclen && NameLen(b, off) == |name|
    ensures b[off + 8..off + 8 + |name|] == name
  {
    var h := Header(ino, reclen, name);
    assert h[0..4] == Bytes4(ino) && h[4..6] == Bytes2(reclen) && h[6..8] == Bytes2(|name|) && h[8..] == name;
    SubSlice(b, off, h, 0, 4);
    SubSlice(b, off, h, 4, 6);
    SubSlice(b, off, h, 6, 8);
    SubSlice(b, off, h, 8, |h|);
    LeBytes4(ino);
    LeBytes2(reclen);
    LeBytes2(|name|);
  }

  /** A header written at `off` is a valid record there if its fields are. */
  lemma WrittenRecord(b: Block, off: nat, limit: nat, ino: nat, reclen: nat, name: Name)
    requires ino < TWO32 && reclen < 65536 && |name| <= 255 && limit <= 1024
    requires FieldsOk(reclen, |name|, off, limit)
    ensures Record(Splice(b, off, Header(ino, reclen, name)), off, limit, off + reclen, Entry(name, ino))
  {
    var nb := Splice(b, off, Header(ino, reclen, name));
    assert nb[off..off + 8 + |name|] == Header(ino, reclen, name);
    HeaderReadsBack(nb, off, ino, reclen, name);
  }

  /** Blocks that agree on a record's header and name hold the same record there. */
  lemma SameRecord(b: Block, nb: Block, off: nat, limit: nat, next: nat, e: Entry)
    requires Record(b, off, limit, next, e)
    requires forall i :: off <= i < off + 8 + |e.name| ==> nb[i] == b[i]
    ensures Record(nb, off, limit, next, e)
  {
    assert nb[off..off + 4] == b[off..off + 4];
    assert nb[off + 4..off + 6] == b[off + 4..off + 6] && nb[off + 6..off + 8] == b[off + 6..off + 8];
    assert nb[off + 8..off + 8 + NameLen(b, off)] == b[off + 8..off + 8 + NameLen(b, off)];
  }

  lemma OneRecordEntries(ino: nat, name: Name)
    requires 0 < ino < TWO32 && |name| <= 255
    ensures Chain(OneRecord(ino, name), 0, 1024)
    ensures Entries(OneRecord(ino, name), 0, 1024) == [Entry(name, ino)]
  {
    var b := OneRecord(ino, name);
    WrittenRecord(Zero(), 0, 1024, ino, 1024, name);
    EntriesCons(b, 0, 1024, 1024, Entry(name, ino));
    ChainCons(b, 0, 1024, 1024, Entry(name, ino));
    EntriesEnd(b, 1024);
  }

  lemma RestFits(len: nat, n: nat, off: nat, limit: nat, need: nat)
    requires FieldsOk(len, n, off, limit) && off + len == limit && need <= 255
    requires RecSize(n) + RecSize(need) <= len
    ensures FieldsOk(RecSize(n), n, off, limit)
    ensures FieldsOk(len - RecSize(n), need, off + RecSize(n), limit)
  {
  }

  /** Rewriting the length field alone keeps the entry. */
  lemma ShrunkRecord(b: Block, off: nat, limit: nat, len: nat)
    requires RecOk(b, off, limit) && len < 65536 && FieldsOk(len, NameLen(b, off), off, limit)
    ensures Record(Splice(b, off + 4, Bytes2(len)), off, limit, off + len, EntryAt(b, off, limit))
  {
    var nb := Splice(b, off + 4, Bytes2(len));
    assert nb[off..off + 4] == b[off..off + 4] && nb[off + 6..off + 8] == b[off + 6..off + 8];
    assert nb[off + 4..off + 6] == Bytes2(len);
    LeBytes2(len);
    assert nb[off + 8..off + 8 + NameLen(b, off)] == b[off + 8..off + 8 + NameLen(b, off)];
  }

  /** The split leaves the new record behind the old one, up to the limit. */
  lemma SplitNew(b: Block, off: nat, limit: nat, ino: nat, name: Name)
    requires 0 < ino < TWO32 && |name| <= 255
    requires RecOk(b, off, limit) && off + RecLen(b, off) == limit
    requires RecSize(NameLen(b, off)) + RecSize(|name|) <= RecLen(b, off)
    ensures Record(Split(b, off, ino, name), off + RecSize(NameLen(b, off)), limit, limit, Entry(name, ino))
  {
    var len, actual := RecLen(b, off), RecSize(NameLen(b, off));
    RestFits(len, NameLen(b, off), off, limit, |name|);
    WrittenRecord(Splice(b, off + 4, Bytes2(actual)), off + actual, limit, ino, len - actual, name);
  }

  /** ... and the old record, shrunk, where it was. */
  lemma SplitOld(b: Block, off: nat, limit: nat, ino: nat, name: Name)
    requires 0 < ino < TWO32 && |name| <= 255
    requires RecOk(b, off, limit) && off + RecLen(b, off) == limit
    requires RecSize(NameLen(b, off)) + RecSize(|name|) <= RecLen(b, off)
    ensures Record(Split(b, off, ino, name), off, limit, off + RecSize(NameLen(b, off)), EntryAt(b, off, limit))
  {
    var actual := RecSize(NameLen(b, off));
    RestFits(RecLen(b, off), NameLen(b, off), off, limit, |name|);
    ShrunkRecord(b, off, limit, actual);
    SameRecord(Splice(b, off + 4, Bytes2(actual)), Split(b, off, ino, name), off, limit, off + actual,
               EntryAt(b, off, limit));
  }

  lemma SplitLast(b: Block, off: nat, limit: nat, ino: nat, name: Name)
    requires 0 < ino < TWO32 && |name| <= 255
    requires RecOk(b, off, limit) && off + RecLen(b, off) == limit
    requires RecSize(NameLen(b, off)) + RecSize(|name|) <= RecLen(b, off)
    ensures Chain(Split(b, off, ino, name), off, limit)
    ensures Entries(Split(b, off, ino, name), off, limit) == Entries(b, off, limit) + [Entry(name, ino)]
  {
    var nb, nx, e := Split(b, off, ino, name), off + RecSize(NameLen(b, off)), EntryAt(b, off, limit);
    SplitOld(b, off, limit, ino, name);
    SplitNew(b, off, limit, ino, name);
    EntriesCons(nb, off, limit, nx, e);
    EntriesCons(nb, nx, limit, limit, Entry(name, ino));
    ChainCons(nb, off, limit, nx, e);
    ChainCons(nb, nx, limit, limit, Entry(name, ino));
    EntriesCons(b, off, limit, limit, e);
    EntriesEnd(nb, limit);
    EntriesEnd(b, limit);
  }

  /** Splitting the last record appends one entry and keeps the chain. */
  lemma {:induction false} SplitEntries(b: Block, from: nat, off: nat, limit: nat, ino: nat, name: Name)
    requires 0 < ino < TWO32 && |name| <= 255
    requires OnChain(b, from, off, limit) && RecOk(b, off, limit)
    requires off + RecLen(b, off) == limit
    requires RecSize(NameLen(b, off)) + RecSize(|name|) <= RecLen(b, off)
    ensures Chain(Split(b, off, ino, name), from, limit)
    ensures Entries(Split(b, off, ino, name), from, limit) == Entries(b, from, limit) + [Entry(name, ino)]
    decreases 1024 - from
  {
    if from == off {
      SplitLast(b, off, limit, ino, name);
    } else {
      var nb, nx, e := Split(b, off, ino, name), from + RecLen(b, from), EntryAt(b, from, limit);
      OnChainBelow(b, nx, off, limit);
      SplitKeepsBefore(b, off, limit, ino, name);
      SameRecord(b, nb, from, limit, nx, e);
      EntriesCons(b, from, limit, nx, e);
      EntriesCons(nb, from, limit, nx, e);
      ChainCons(nb, from, limit, nx, e);
      SplitEntries(b, nx, off, limit, ino, name);
    }
  }

  lemma SplitKeepsBefore(b: Block, off: nat, limit: nat, ino: nat, name: Name)
    requires 0 < ino < TWO32 && |name| <= 255 && RecOk(b, off, limit)
    requires RecSize(NameLen(b, off)) + RecSize(|name|) <= RecLen(b, off)
    ensures forall i :: 0 <= i < off ==> Split(b, off, ino, name)[i] == b[i]
  {}

  lemma OnChainBelow(b: Block, from: nat, off: nat, limit: nat)
    requires OnChain(b, from, off, limit)
    ensures from <= off
  {}

  lemma {:induction false} OnChainStep(b: Block, from: nat, off: nat, limit: nat)
    requires OnChain(b, from, off, limit) && RecOk(b, off, limit)
    ensures OnChain(b, from, off + RecLen(b, off), limit)
    decreases 1024 - from
  {
    if from != off {
      OnChainStep(b, from + RecLen(b, from), off, limit);
    }
  }
}
