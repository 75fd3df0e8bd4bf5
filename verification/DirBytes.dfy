/** Directories as files: the entries of a directory are the bytes of its inode, sixteen each. */
module DirBytes {
  import opened Words
  import opened LogSpec
  import opened FsSpec
  import opened FsOwner
  import opened FsFile
  import opened FsInode
  import opened FsWrite
  import opened Fs
  import opened DirSpec

  const ENTRY := 2 + MAX_DIR_SIZE

  predicate Fits(es: seq<Entry>) {
    forall k :: 0 <= k < |es| ==> es[k].inum <= MAX_INUM
  }

  function Encode(e: Entry): (bs: seq<u8>)
    requires e.inum <= MAX_INUM
    ensures |bs| == ENTRY
  {
    [e.inum % 0x100, e.inum / 0x100] + e.name
  }

  function Decode(bs: seq<u8>): (e: Entry)
    requires |bs| == ENTRY
    ensures e.inum <= MAX_INUM
  {
    Entry(HalfAt(bs, 0), bs[2..])
  }

  lemma EntryRoundTrip(e: Entry, bs: seq<u8>)
    requires e.inum <= MAX_INUM && |bs| == ENTRY
    ensures Decode(Encode(e)) == e && Encode(Decode(bs)) == bs
  {
    assert Encode(e)[2..] == e.name;
    assert bs == [bs[0], bs[1]] + bs[2..];
  }

  /** The bytes of a directory. */
  function BytesOf(es: seq<Entry>): (bs: seq<u8>)
    requires Fits(es)
    ensures |bs| == ENTRY * |es|
    decreases |es|
  {
    if es == [] then [] else BytesOf(es[..|es| - 1]) + Encode(es[|es| - 1])
  }

  /** The bytes of entry `k`. */
  lemma {:induction false} EntryAtPlace(es: seq<Entry>, k: nat)
    requires Fits(es) && k < |es|
    ensures ENTRY * k + ENTRY <= |BytesOf(es)|
    ensures BytesOf(es)[ENTRY * k..ENTRY * k + ENTRY] == Encode(es[k])
    decreases |es|
  {
    var n := |es| - 1;
    if k < n {
      EntryAtPlace(es[..n], k);
      assert BytesOf(es)[ENTRY * k..ENTRY * k + ENTRY] == BytesOf(es[..n])[ENTRY * k..ENTRY * k + ENTRY];
    }
  }

  lemma SpliceEnd(f: seq<u8>, s: seq<u8>)
    ensures Splice(f, |f|, s) == f + s
  {
  }

  lemma SpliceLast(f: seq<u8>, x: seq<u8>, s: seq<u8>)
    requires |s| == |x|
    ensures Splice(f + x, |f|, s) == f + s
  {
  }

  lemma SpliceBefore(f: seq<u8>, x: seq<u8>, off: nat, s: seq<u8>)
    requires off + |s| <= |f|
    ensures Splice(f + x, off, s) == Splice(f, off, s) + x
  {
  }

  /** Writing the bytes of an entry is setting the entry. */
  lemma {:induction false} WriteIsPut(es: seq<Entry>, k: nat, e: Entry)
    requires Fits(es) && k <= |es| && e.inum <= MAX_INUM
    ensures Fits(PutEntry(es, k, e)) && ENTRY * k <= |BytesOf(es)|
    ensures Splice(BytesOf(es), ENTRY * k, Encode(e)) == BytesOf(PutEntry(es, k, e))
    decreases |es|
  {
    var n := |es| - 1;
    if k == |es| {
      SpliceEnd(BytesOf(es), Encode(e));
      assert (es + [e])[..|es|] == es;
    } else if k == n {
      SpliceLast(BytesOf(es[..n]), Encode(es[n]), Encode(e));
      assert es[k := e][..n] == es[..n];
    } else {
      WriteIsPut(es[..n], k, e);
      SpliceBefore(BytesOf(es[..n]), Encode(es[n]), ENTRY * k, Encode(e));
      assert es[k := e][..n] == es[..n][k := e];
    }
  }

  lemma InBlockOf(x: nat, q: nat, r: nat)
    requires x == BSIZE * q + r && r < BSIZE
    ensures x / BSIZE == q
  {
  }

  /** An entry never crosses the end of a block. */
  lemma OneBlock(k: nat)
    ensures BlocksAt(ENTRY * k, ENTRY) == 1
  {
    var q, r := k / (BSIZE / ENTRY), k % (BSIZE / ENTRY);
    InBlockOf(ENTRY * k, q, ENTRY * r);
    InBlockOf(ENTRY * k + ENTRY - 1, q, ENTRY * r + ENTRY - 1);
  }

  /** Inode `i` is a directory with these entries. */
  ghost predicate Holds(fs: FileSystem, i: nat, es: seq<Entry>)
    reads fs
  {
    fs.Valid() && i < fs.sb.ninodes && Fits(es) && fs.File(i) == BytesOf(es) && fs.dinodes[i].size == ENTRY * |es|
  }

  /** One `iread` of the searches. */
  method ReadEntry(fs: FileSystem, i: nat, k: nat, ghost es: seq<Entry>) returns (e: Entry)
    requires Holds(fs, i, es) && k < |es|
    modifies fs
    ensures Holds(fs, i, es) && fs.disk == old(fs.disk) && fs.dinodes == old(fs.dinodes) && fs.chunks == old(fs.chunks)
    ensures e == es[k]
  {
    OneBlock(k);
    EntryAtPlace(es, k);
    EntryRoundTrip(es[k], Encode(es[k]));
    var ok, bs := fs.Iread(i, ENTRY * k, ENTRY, 1);
    e := Decode(bs);
  }

  /** The search of `dir_lookup`. */
  method Lookup(fs: FileSystem, i: nat, name: Name, ghost es: seq<Entry>) returns (k: nat)
    requires Holds(fs, i, es)
    modifies fs
    ensures Holds(fs, i, es) && fs.disk == old(fs.disk) && fs.dinodes == old(fs.dinodes) && fs.chunks == old(fs.chunks)
    ensures k == FirstNamed(es, name, 0)
  {
    k := 0;
    while ENTRY * k < fs.dinodes[i].size
      invariant k <= |es| && FirstNamed(es, name, 0) == FirstNamed(es, name, k)
      invariant Holds(fs, i, es) && fs.disk == old(fs.disk) && fs.dinodes == old(fs.dinodes)
                && fs.chunks == old(fs.chunks)
      decreases |es| - k
    {
      var e := ReadEntry(fs, i, k, es);
      if e.inum != 0 && SameName(e.name, name) { return; }
      k := k + 1;
    }
  }

  /** The search for a place in `dir_link`. */
  method FindPlace(fs: FileSystem, i: nat, ghost es: seq<Entry>) returns (k: nat)
    requires Holds(fs, i, es)
    modifies fs
    ensures Holds(fs, i, es) && fs.disk == old(fs.disk) && fs.dinodes == old(fs.dinodes) && fs.chunks == old(fs.chunks)
    ensures k == FirstFree(es, 0)
  {
    k := 0;
    while ENTRY * k < fs.dinodes[i].size
      invariant k <= |es| && FirstFree(es, 0) == FirstFree(es, k)
      invariant Holds(fs, i, es) && fs.disk == old(fs.disk) && fs.dinodes == old(fs.dinodes)
                && fs.chunks == old(fs.chunks)
      decreases |es| - k
    {
      var e := ReadEntry(fs, i, k, es);
      if e.inum == 0 { return; }
      k := k + 1;
    }
  }

  lemma SizeOfPut(es: seq<Entry>, k: nat, e: Entry)
    requires k <= |es|
    ensures ENTRY * |PutEntry(es, k, e)| ==
            if ENTRY * k + ENTRY > ENTRY * |es| then ENTRY * k + ENTRY else ENTRY * |es|
    ensures ENTRY * k <= ENTRY * |es|
  {
  }

  /** The write of `dir_link` and `dir_unlink`: entry `k` becomes `e`, and no other file changes. */
  method WriteEntry(fs: FileSystem, i: nat, k: nat, e: Entry, ghost es: seq<Entry>) returns (r: WriteResult)
    requires Holds(fs, i, es) && fs.dinodes[i].itype != 0 && k <= |es| && e.inum <= MAX_INUM
    modifies fs
    ensures r.Wrote? ==> Holds(fs, i, PutEntry(es, k, e))
    ensures r.Wrote? ==>
              forall j: nat :: j != i ==> FileOf(fs.dinodes, fs.chunks, j) == FileOf(old(fs.dinodes), old(fs.chunks), j)
    ensures r.Refused? <==> ENTRY * k + ENTRY > MAX_FILE_SIZE
    ensures r.Refused? ==> Holds(fs, i, es) && fs.disk == old(fs.disk)
    ensures r.DiskFull? ==> TakenBelow(fs.sb, fs.disk, fs.sb.size)
  {
    OneBlock(k);
    WriteIsPut(es, k, e);
    SizeOfPut(es, k, e);
    ghost var bytes := Encode(e);
    assert bytes[..ENTRY] == bytes;
    r := fs.TryIwrite(i, Encode(e), ENTRY * k, 1);
  }
}
