/** Files as byte sequences. */
module FsFile {
  import opened Words
  import opened LogSpec
  import opened FsSpec
  import opened FsOwner

  type Chunks = map<(nat, nat), Block>

  ghost predicate HasFile(chunks: Chunks, i: nat) {
    forall k :: 0 <= k < MAXBLOCKS ==> (i, k) in chunks
  }

  /** Byte `o` of file `i`. */
  function ByteAt(chunks: Chunks, i: nat, o: nat): u8
    requires o < MAX_FILE_SIZE && HasFile(chunks, i)
  {
    chunks[(i, o / BSIZE)].bytes[o % BSIZE]
  }

  ghost function FileBytes(chunks: Chunks, i: nat, size: nat): (f: seq<u8>)
    requires size <= MAX_FILE_SIZE && HasFile(chunks, i)
    ensures |f| == size && forall o {:trigger f[o]} :: 0 <= o < size ==> f[o] == ByteAt(chunks, i, o)
  {
    seq(size, o requires 0 <= o < size => ByteAt(chunks, i, o))
  }

  /** `f` with the bytes `s` written at `off`; the file grows if they reach beyond its end. */
  function Splice(f: seq<u8>, off: nat, s: seq<u8>): seq<u8>
    requires off <= |f|
  {
    f[..off] + s + if off + |s| < |f| then f[off + |s|..] else []
  }

  /** The bytes `s` have been written at `off` of file `i`, and nothing else has changed. */
  ghost predicate Spliced(chunks: Chunks, chunks': Chunks, i: nat, off: nat, s: seq<u8>) {
    && HasFile(chunks, i) && HasFile(chunks', i) && off + |s| <= MAX_FILE_SIZE
    && chunks'.Keys == chunks.Keys
    && (forall p :: p in chunks && p.0 != i ==> chunks'[p] == chunks[p])
    && forall o: nat {:trigger ByteAt(chunks', i, o)} :: o < MAX_FILE_SIZE ==>
         ByteAt(chunks', i, o) == if off <= o < off + |s| then s[o - off] else ByteAt(chunks, i, o)
  }

  lemma SplicedNothing(chunks: Chunks, i: nat, off: nat)
    requires HasFile(chunks, i) && off <= MAX_FILE_SIZE
    ensures Spliced(chunks, chunks, i, off, [])
  {
  }

  lemma SplicedMore(c0: Chunks, c1: Chunks, c2: Chunks, i: nat, off: nat, s: seq<u8>, t: seq<u8>)
    requires Spliced(c0, c1, i, off, s) && Spliced(c1, c2, i, off + |s|, t)
    ensures Spliced(c0, c2, i, off, s + t)
  {
    forall o: nat | o < MAX_FILE_SIZE
      ensures ByteAt(c2, i, o) == if off <= o < off + |s + t| then (s + t)[o - off] else ByteAt(c0, i, o)
    {
      assert ByteAt(c1, i, o) == if off <= o < off + |s| then s[o - off] else ByteAt(c0, i, o);
    }
  }

  /** A block with the bytes `s` written at `at`. */
  function PutBytes(x: Block, at: nat, s: seq<u8>): Block
    requires at + |s| <= BSIZE
  {
    Data(x.bytes[..at] + s + x.bytes[at + |s|..])
  }

  /** Writing within one block. */
  lemma SpliceBlock(chunks: Chunks, i: nat, k: nat, at: nat, s: seq<u8>)
    requires HasFile(chunks, i) && k < MAXBLOCKS && at + |s| <= BSIZE
    ensures Spliced(chunks, chunks[(i, k) := PutBytes(chunks[(i, k)], at, s)], i, k * BSIZE + at, s)
  {
    var chunks' := chunks[(i, k) := PutBytes(chunks[(i, k)], at, s)];
    forall o: nat | o < MAX_FILE_SIZE
      ensures ByteAt(chunks', i, o) == if k * BSIZE + at <= o < k * BSIZE + at + |s| then s[o - (k * BSIZE + at)]
              else ByteAt(chunks, i, o)
    {
      InBlock(o, k);
    }
  }

  lemma InBlock(o: nat, k: nat)
    ensures o == o / BSIZE * BSIZE + o % BSIZE && (o / BSIZE == k <==> k * BSIZE <= o < (k + 1) * BSIZE)
  {
  }

  /** The file after the write, as one sequence. */
  lemma SplicedFile(chunks: Chunks, chunks': Chunks, i: nat, off: nat, s: seq<u8>, size: nat)
    requires Spliced(chunks, chunks', i, off, s) && off <= size <= MAX_FILE_SIZE
    ensures var size' := if off + |s| > size then off + |s| else size;
            FileBytes(chunks', i, size') == Splice(FileBytes(chunks, i, size), off, s)
  {
    var size' := if off + |s| > size then off + |s| else size;
    var f, g := FileBytes(chunks, i, size), FileBytes(chunks', i, size');
    forall o | 0 <= o < size' ensures g[o] == Splice(f, off, s)[o] {
      assert g[o] == ByteAt(chunks', i, o);
      if o < off || o >= off + |s| { assert f[o] == ByteAt(chunks, i, o); }
    }
  }

  /** Writing `s` and then `t` behind it is writing `s + t`. */
  lemma SpliceTwice(f: seq<u8>, off: nat, s: seq<u8>, t: seq<u8>)
    requires off <= |f|
    ensures off + |s| <= |Splice(f, off, s)|
    ensures Splice(Splice(f, off, s), off + |s|, t) == Splice(f, off, s + t)
  {
    var g := Splice(f, off, s);
    assert g[..off + |s|] == f[..off] + s;
    if off + |s + t| < |f| {
      assert g[off + |s| + |t|..] == f[off + |s| + |t|..];
    }
  }

  /** Reading within one block. */
  lemma ReadBlock(chunks: Chunks, i: nat, size: nat, o: nat, n: nat)
    requires HasFile(chunks, i) && o + n <= size <= MAX_FILE_SIZE && o % BSIZE + n <= BSIZE && n > 0
    ensures o / BSIZE < MAXBLOCKS
    ensures FileBytes(chunks, i, size)[o..o + n] == chunks[(i, o / BSIZE)].bytes[o % BSIZE..o % BSIZE + n]
  {
    var f, b := FileBytes(chunks, i, size), chunks[(i, o / BSIZE)].bytes;
    var fs, bs := f[o..o + n], b[o % BSIZE..o % BSIZE + n];
    forall j | 0 <= j < n ensures fs[j] == bs[j] {
      assert f[o + j] == ByteAt(chunks, i, o + j);
      SameBlock(o, j);
    }
  }

  lemma SameBlock(o: nat, j: nat)
    requires o % BSIZE + j < BSIZE
    ensures (o + j) / BSIZE == o / BSIZE && (o + j) % BSIZE == o % BSIZE + j
  {
  }
}
