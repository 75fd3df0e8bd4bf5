/** Little-endian machine words inside byte sequences: how the kernel's `repr(C)` structures lie in a disk block. */
module Words {
  /** A `u8`. */
  type u8 = v: int | 0 <= v < 0x100

  /** Values of a `u32`. */
  predicate IsWord(v: int) {
    0 <= v < 0x1_0000_0000
  }

  function HalfAt(b: seq<u8>, off: nat): (v: nat)
    requires off + 2 <= |b|
    ensures v < 0x1_0000
  {
    b[off] as int + 0x100 * b[off + 1] as int
  }

  function PutHalf(b: seq<u8>, off: nat, v: nat): (r: seq<u8>)
    requires off + 2 <= |b| && v < 0x1_0000
    ensures |r| == |b| && HalfAt(r, off) == v
    ensures forall i :: 0 <= i < |b| && !(off <= i < off + 2) ==> r[i] == b[i]
  {
    b[off := v % 0x100][off + 1 := v / 0x100]
  }

  function WordAt(b: seq<u8>, off: nat): (v: nat)
    requires off + 4 <= |b|
    ensures IsWord(v)
  {
    HalfAt(b, off) + 0x1_0000 * HalfAt(b, off + 2)
  }

  function PutWord(b: seq<u8>, off: nat, v: nat): (r: seq<u8>)
    requires off + 4 <= |b| && IsWord(v)
    ensures |r| == |b| && WordAt(r, off) == v
    ensures forall i :: 0 <= i < |b| && !(off <= i < off + 4) ==> r[i] == b[i]
  {
    PutHalf(PutHalf(b, off, v % 0x1_0000), off + 2, v / 0x1_0000)
  }

  /** The `k` words that start at `off`. */
  function WordsAt(b: seq<u8>, off: nat, k: nat): (r: seq<nat>)
    requires off + 4 * k <= |b|
    ensures |r| == k && forall i :: 0 <= i < k ==> r[i] == WordAt(b, off + 4 * i)
  {
    seq(k, i requires 0 <= i < k => WordAt(b, off + 4 * i))
  }

  function PutWords(b: seq<u8>, off: nat, ws: seq<nat>): (r: seq<u8>)
    requires off + 4 * |ws| <= |b| && forall i :: 0 <= i < |ws| ==> IsWord(ws[i])
    ensures |r| == |b|
    ensures forall i :: 0 <= i < |b| && !(off <= i < off + 4 * |ws|) ==> r[i] == b[i]
    decreases |ws|
  {
    if ws == [] then b else PutWords(PutWord(b, off, ws[0]), off + 4, ws[1..])
  }

  /** A word depends on its own four bytes only. */
  lemma SameWord(b: seq<u8>, c: seq<u8>, off: nat)
    requires off + 4 <= |b| == |c| && forall i :: off <= i < off + 4 ==> b[i] == c[i]
    ensures WordAt(b, off) == WordAt(c, off)
  {
  }

  /** Writing words and reading them back. */
  lemma {:induction false} WordsRoundTrip(b: seq<u8>, off: nat, ws: seq<nat>, i: nat)
    requires off + 4 * |ws| <= |b| && forall i :: 0 <= i < |ws| ==> IsWord(ws[i])
    requires i < |ws|
    ensures WordAt(PutWords(b, off, ws), off + 4 * i) == ws[i]
    decreases |ws|
  {
    var b1, r := PutWord(b, off, ws[0]), PutWords(b, off, ws);
    if i == 0 {
      SameWord(b1, r, off);
    } else {
      WordsRoundTrip(b1, off + 4, ws[1..], i - 1);
    }
  }

  lemma AllWordsRoundTrip(b: seq<u8>, off: nat, ws: seq<nat>)
    requires off + 4 * |ws| <= |b| && forall i :: 0 <= i < |ws| ==> IsWord(ws[i])
    ensures WordsAt(PutWords(b, off, ws), off, |ws|) == ws
  {
    var rs := WordsAt(PutWords(b, off, ws), off, |ws|);
    forall i | 0 <= i < |ws| ensures rs[i] == ws[i] { WordsRoundTrip(b, off, ws, i); }
  }

  lemma SameWords(b: seq<u8>, c: seq<u8>, off: nat, k: nat)
    requires off + 4 * k <= |b| == |c| && forall i :: off <= i < off + 4 * k ==> b[i] == c[i]
    ensures WordsAt(b, off, k) == WordsAt(c, off, k)
  {
    var bs, cs := WordsAt(b, off, k), WordsAt(c, off, k);
    forall i | 0 <= i < k ensures bs[i] == cs[i] { SameWord(b, c, off + 4 * i); }
  }
}
