/** The write-ahead log on disk: its header format, the writes of `commit` and `recover`, and what a crash leaves.
  * A crash may fall between any two block writes or inside one. A block caught half written holds anything;
  * only the log header, which fits in one sector, is written whole or not at all. */
module LogSpec {
  import opened Words

  const BSIZE := 1024
  const MAXOPBLOCKS := 10
  const LOGSIZE := MAXOPBLOCKS * 3

  datatype Data = Data(bytes: seq<u8>)
  type Block = b: Data | |b.bytes| == BSIZE witness Data(seq(BSIZE, _ => 0))
  type Disk = seq<Block>

  // ----- The header

  datatype Header = Header(len: nat, blocknos: seq<nat>)

  ghost predicate HeaderFits(h: Header) {
    && IsWord(h.len) && |h.blocknos| == LOGSIZE - 1
    && forall i :: 0 <= i < |h.blocknos| ==> IsWord(h.blocknos[i])
  }

  function HeaderOf(b: Block): Header {
    Header(WordAt(b.bytes, 0), WordsAt(b.bytes, 4, LOGSIZE - 1))
  }

  function PutHeader(b: Block, h: Header): Block
    requires HeaderFits(h)
  {
    Data(PutWords(PutWord(b.bytes, 0, h.len), 4, h.blocknos))
  }

  function PutEmpty(b: Block): Block {
    Data(PutWord(b.bytes, 0, 0))
  }

  lemma HeaderRoundTrip(b: Block, h: Header)
    requires HeaderFits(h)
    ensures HeaderOf(PutHeader(b, h)) == h
  {
    var b1, r := PutWord(b.bytes, 0, h.len), PutHeader(b, h).bytes;
    SameWord(b1, r, 0);
    forall i | 0 <= i < LOGSIZE - 1 ensures WordsAt(r, 4, LOGSIZE - 1)[i] == h.blocknos[i] {
      WordsRoundTrip(b1, 4, h.blocknos, i);
    }
  }

  lemma EmptyKeepsBlocknos(b: Block)
    ensures HeaderOf(PutEmpty(b)) == HeaderOf(b).(len := 0)
  {
    var e := PutEmpty(b).bytes;
    forall i | 0 <= i < LOGSIZE - 1 ensures WordAt(e, 4 + 4 * i) == WordAt(b.bytes, 4 + 4 * i) {
      SameWord(e, b.bytes, 4 + 4 * i);
    }
    assert WordsAt(e, 4, LOGSIZE - 1) == WordsAt(b.bytes, 4, LOGSIZE - 1);
  }

  // ----- The log area and the rest of the disk

  /** The header block is `start`; the copy of the i-th logged block is at `start + 1 + i`. */
  datatype Area = Area(start: nat, size: nat)

  predicate InArea(a: Area, b: nat) {
    a.start <= b < a.start + a.size
  }

  /** A header that `write` can build: distinct blocks of the disk outside the log, with room for their copies. */
  ghost predicate HeaderOk(a: Area, n: nat, h: Header) {
    && HeaderFits(h) && h.len <= LOGSIZE - 1 && h.len < a.size && a.start + a.size <= n
    && (forall i :: 0 <= i < h.len ==> h.blocknos[i] < n && !InArea(a, h.blocknos[i]))
    && forall i, j :: 0 <= i < j < h.len ==> h.blocknos[i] != h.blocknos[j]
  }

  ghost predicate DiskOk(a: Area, d: Disk) {
    a.start < |d| && HeaderOk(a, |d|, HeaderOf(d[a.start]))
  }

  /** Two disks that agree everywhere outside the log. */
  ghost predicate SameHome(a: Area, d: Disk, e: Disk) {
    |d| == |e| && forall b :: 0 <= b < |d| && !InArea(a, b) ==> d[b] == e[b]
  }

  ghost predicate Logged(h: Header, b: nat)
    requires h.len <= |h.blocknos|
  {
    exists i :: 0 <= i < h.len && h.blocknos[i] == b
  }

  /** The disk with every logged block replaced. */
  ghost predicate IsAfter(a: Area, d: Disk, h: Header, logged: seq<Block>, e: Disk)
    requires h.len <= |h.blocknos| && |logged| == h.len
  {
    && |e| == |d|
    && (forall i :: 0 <= i < h.len && h.blocknos[i] < |d| ==> e[h.blocknos[i]] == logged[i])
    && forall b :: 0 <= b < |d| && !InArea(a, b) && !Logged(h, b) ==> e[b] == d[b]
  }

  // ----- Writes and crashes

  datatype Write = Write(b: nat, data: Block)

  ghost predicate WritesFit(d: Disk, ws: seq<Write>) {
    forall i :: 0 <= i < |ws| ==> ws[i].b < |d|
  }

  function Apply(d: Disk, ws: seq<Write>): (e: Disk)
    requires WritesFit(d, ws)
    ensures |e| == |d|
    decreases |ws|
  {
    if ws == [] then d else Apply(d[ws[0].b := ws[0].data], ws[1..])
  }

  /** A block of the disk after `d` may hold anything: the write to it was cut short. */
  ghost predicate Torn(d: Disk, b: nat, e: Disk)
    requires b < |d|
  {
    |e| == |d| && forall c :: 0 <= c < |d| && c != b ==> e[c] == d[c]
  }

  /** What a crash somewhere in the writes `ws` may leave of the disk `d`. */
  ghost predicate CrashImage(a: Area, d: Disk, ws: seq<Write>, e: Disk)
    requires WritesFit(d, ws)
    decreases |ws|
  {
    || e == d
    || (ws != [] && ws[0].b != a.start && Torn(d, ws[0].b, e))
    || (ws != [] && CrashImage(a, d[ws[0].b := ws[0].data], ws[1..], e))
  }

  lemma {:induction false} ApplyAppend(d: Disk, ws: seq<Write>, w: Write)
    requires WritesFit(d, ws) && w.b < |d|
    ensures Apply(d, ws + [w]) == Apply(d, ws)[w.b := w.data]
    decreases |ws|
  {
    if ws != [] {
      assert (ws + [w])[0] == ws[0] && (ws + [w])[1..] == ws[1..] + [w];
      ApplyAppend(d[ws[0].b := ws[0].data], ws[1..], w);
    } else {
      assert (ws + [w])[0] == w && (ws + [w])[1..] == [];
    }
  }

  lemma {:induction false} ApplyConcat(d: Disk, ws: seq<Write>, vs: seq<Write>)
    requires WritesFit(d, ws) && WritesFit(d, vs)
    ensures Apply(d, ws + vs) == Apply(Apply(d, ws), vs)
    decreases |ws|
  {
    if ws == [] {
      assert ws + vs == vs;
    } else {
      assert (ws + vs)[0] == ws[0] && (ws + vs)[1..] == ws[1..] + vs;
      ApplyConcat(d[ws[0].b := ws[0].data], ws[1..], vs);
    }
  }

  /** A crash in two batches of writes falls in the first or in the second. */
  lemma {:induction false} CrashInBatches(a: Area, d: Disk, ws: seq<Write>, vs: seq<Write>, e: Disk)
    requires WritesFit(d, ws) && WritesFit(d, vs) && CrashImage(a, d, ws + vs, e)
    ensures CrashImage(a, d, ws, e) || CrashImage(a, Apply(d, ws), vs, e)
    decreases |ws|
  {
    if ws == [] {
      assert ws + vs == vs;
    } else {
      assert (ws + vs)[0] == ws[0] && (ws + vs)[1..] == ws[1..] + vs;
      if e != d && !(ws[0].b != a.start && Torn(d, ws[0].b, e)) {
        CrashInBatches(a, d[ws[0].b := ws[0].data], ws[1..], vs, e);
      }
    }
  }

  // ----- The writes of commit and recover

  function CopyWrites(a: Area, logged: seq<Block>): seq<Write> {
    seq(|logged|, i requires 0 <= i < |logged| => Write(a.start + 1 + i, logged[i]))
  }

  function InstallWrites(h: Header, logged: seq<Block>): seq<Write>
    requires |logged| <= |h.blocknos|
  {
    seq(|logged|, i requires 0 <= i < |logged| => Write(h.blocknos[i], logged[i]))
  }

  /** The copies in the log, then the header, then the blocks themselves, then the empty header. */
  ghost function CommitWrites(a: Area, d: Disk, h: Header, logged: seq<Block>): (ws: seq<Write>)
    requires a.start < |d| && HeaderFits(h) && |logged| <= LOGSIZE - 1
  {
    var head := PutHeader(d[a.start], h);
    CopyWrites(a, logged) + [Write(a.start, head)] + InstallWrites(h, logged) + [Write(a.start, PutEmpty(head))]
  }

  /** The copies that the log holds now. */
  function Copies(a: Area, d: Disk, n: nat): (s: seq<Block>)
    requires a.start + n < |d|
  {
    d[a.start + 1..a.start + 1 + n]
  }

  ghost function RecoverWrites(a: Area, d: Disk): seq<Write>
    requires DiskOk(a, d)
  {
    var h := HeaderOf(d[a.start]);
    if h.len == 0 then [] else
      InstallWrites(h, Copies(a, d, h.len)) + [Write(a.start, PutEmpty(d[a.start]))]
  }

  ghost function Recovered(a: Area, d: Disk): Disk
    requires DiskOk(a, d)
  {
    assert WritesFit(d, RecoverWrites(a, d));
    Apply(d, RecoverWrites(a, d))
  }

  // ----- The two states of a log

  /** Nothing is logged and the disk outside the log is `home`. */
  ghost predicate Quiet(a: Area, d: Disk, home: Disk) {
    DiskOk(a, d) && HeaderOf(d[a.start]).len == 0 && SameHome(a, d, home)
  }

  /** The header and the copies are on disk; the logged blocks themselves may hold anything. */
  ghost predicate Committed(a: Area, d: Disk, h: Header, logged: seq<Block>, home: Disk) {
    && HeaderOk(a, |d|, h) && HeaderOf(d[a.start]) == h && |d| == |home| && |logged| == h.len
    && Copies(a, d, h.len) == logged
    && forall b :: 0 <= b < |d| && !InArea(a, b) && !Logged(h, b) ==> d[b] == home[b]
  }

  /** Writing logged blocks, whole or torn, leaves a committed log committed. */
  lemma WriteLoggedBlock(a: Area, d: Disk, h: Header, logged: seq<Block>, home: Disk, b: nat, e: Disk)
    requires Committed(a, d, h, logged, home) && Logged(h, b) && b < |d| && Torn(d, b, e)
    ensures Committed(a, e, h, logged, home) && b != a.start
  {
    assert !InArea(a, b);
    assert |e| == |d| && forall c :: 0 <= c < |d| && c != b ==> e[c] == d[c];
    SameCopies(a, d, e, h.len);
  }

  lemma SameCopies(a: Area, d: Disk, e: Disk, n: nat)
    requires |e| == |d| && a.start + n < |d| && forall c :: a.start < c <= a.start + n ==> e[c] == d[c]
    ensures Copies(a, e, n) == Copies(a, d, n)
  {
    forall i | 0 <= i < n ensures Copies(a, e, n)[i] == Copies(a, d, n)[i] {
      assert e[a.start + 1 + i] == d[a.start + 1 + i];
    }
  }

  lemma CopyOneMore(a: Area, d: Disk, logged: seq<Block>, i: nat)
    requires i < |logged| && a.start + |logged| < |d|
    ensures WritesFit(d, CopyWrites(a, logged[..i])) && WritesFit(d, CopyWrites(a, logged[..i + 1]))
    ensures var w := Write(a.start + 1 + i, logged[i]);
            && CopyWrites(a, logged[..i + 1]) == CopyWrites(a, logged[..i]) + [w]
            && Apply(d, CopyWrites(a, logged[..i + 1])) == Apply(d, CopyWrites(a, logged[..i]))[w.b := w.data]
  {
    var w := Write(a.start + 1 + i, logged[i]);
    assert CopyWrites(a, logged[..i + 1]) == CopyWrites(a, logged[..i]) + [w];
    ApplyAppend(d, CopyWrites(a, logged[..i]), w);
  }

  lemma InstallOneMore(d: Disk, h: Header, logged: seq<Block>, i: nat)
    requires i < |logged| == h.len <= |h.blocknos| && forall k :: 0 <= k < h.len ==> h.blocknos[k] < |d|
    ensures WritesFit(d, InstallWrites(h, logged[..i])) && WritesFit(d, InstallWrites(h, logged[..i + 1]))
    ensures var w := Write(h.blocknos[i], logged[i]);
            && InstallWrites(h, logged[..i + 1]) == InstallWrites(h, logged[..i]) + [w]
            && Apply(d, InstallWrites(h, logged[..i + 1])) == Apply(d, InstallWrites(h, logged[..i]))[w.b := w.data]
  {
    var w := Write(h.blocknos[i], logged[i]);
    assert InstallWrites(h, logged[..i + 1]) == InstallWrites(h, logged[..i]) + [w];
    ApplyAppend(d, InstallWrites(h, logged[..i]), w);
  }

  ghost predicate AllLogged(h: Header, ws: seq<Write>)
    requires h.len <= |h.blocknos|
  {
    forall i :: 0 <= i < |ws| ==> Logged(h, ws[i].b)
  }

  lemma {:induction false} InstallKeepsCommitted(a: Area, d: Disk, h: Header, logged: seq<Block>, home: Disk,
                                                 ws: seq<Write>)
    requires Committed(a, d, h, logged, home) && WritesFit(d, ws) && AllLogged(h, ws)
    ensures Committed(a, Apply(d, ws), h, logged, home)
    ensures forall e :: CrashImage(a, d, ws, e) ==> Committed(a, e, h, logged, home)
    decreases |ws|
  {
    if ws != [] {
      assert Logged(h, ws[0].b);
      var d1 := d[ws[0].b := ws[0].data];
      WriteLoggedBlock(a, d, h, logged, home, ws[0].b, d1);
      InstallKeepsCommitted(a, d1, h, logged, home, ws[1..]);
      forall e | CrashImage(a, d, ws, e) ensures Committed(a, e, h, logged, home) {
        if Torn(d, ws[0].b, e) { WriteLoggedBlock(a, d, h, logged, home, ws[0].b, e); }
      }
    }
  }

  /** The copies of the logged blocks go to blocks that nothing reads while the header is empty. */
  lemma {:induction false} CopyKeepsQuiet(a: Area, d: Disk, ws: seq<Write>, home: Disk)
    requires Quiet(a, d, home) && WritesFit(d, ws)
    requires forall i :: 0 <= i < |ws| ==> a.start < ws[i].b < a.start + a.size
    ensures Quiet(a, Apply(d, ws), home) && Apply(d, ws)[a.start] == d[a.start]
    ensures forall e :: CrashImage(a, d, ws, e) ==> Quiet(a, e, home)
    decreases |ws|
  {
    if ws != [] {
      CopyKeepsQuiet(a, d[ws[0].b := ws[0].data], ws[1..], home);
    }
  }

  lemma {:induction false} CopyApplied(a: Area, d: Disk, logged: seq<Block>, n: nat)
    requires a.start + |logged| < |d| && n <= |logged|
    ensures WritesFit(d, CopyWrites(a, logged[..n]))
    ensures Copies(a, Apply(d, CopyWrites(a, logged[..n])), n) == logged[..n]
    ensures forall b :: 0 <= b < |d| && !(a.start < b <= a.start + n) ==>
              Apply(d, CopyWrites(a, logged[..n]))[b] == d[b]
  {
    if n > 0 {
      CopyApplied(a, d, logged, n - 1);
      CopyOneMore(a, d, logged, n - 1);
      var e := Apply(d, CopyWrites(a, logged[..n - 1]));
      assert Copies(a, e[a.start + n := logged[n - 1]], n) == Copies(a, e, n - 1) + [logged[n - 1]];
    }
  }

  lemma IsAfterOneMore(a: Area, d: Disk, h: Header, logged: seq<Block>, n: nat, e: Disk)
    requires HeaderOk(a, |d|, h) && |logged| == h.len && n < h.len
    requires IsAfter(a, d, Header(n, h.blocknos), logged[..n], e)
    ensures IsAfter(a, d, Header(n + 1, h.blocknos), logged[..n + 1], e[h.blocknos[n] := logged[n]])
  {
    var m, m', e' := Header(n, h.blocknos), Header(n + 1, h.blocknos), e[h.blocknos[n] := logged[n]];
    forall b | 0 <= b < |d| && !InArea(a, b) && !Logged(m', b) ensures e'[b] == d[b] {
      assert m'.blocknos[n] != b && !Logged(m, b);
    }
  }

  lemma {:induction false} InstallApplied(a: Area, d: Disk, h: Header, logged: seq<Block>, n: nat)
    requires HeaderOk(a, |d|, h) && |logged| == h.len && n <= h.len
    ensures WritesFit(d, InstallWrites(h, logged[..n]))
    ensures IsAfter(a, d, Header(n, h.blocknos), logged[..n], Apply(d, InstallWrites(h, logged[..n])))
  {
    if n > 0 {
      InstallApplied(a, d, h, logged, n - 1);
      InstallOneMore(d, h, logged, n - 1);
      IsAfterOneMore(a, d, h, logged, n - 1, Apply(d, InstallWrites(h, logged[..n - 1])));
    }
  }

  /** All logged blocks are in their places and the header is empty again. */
  ghost predicate Finished(a: Area, d: Disk, h: Header, logged: seq<Block>, home: Disk)
    requires h.len <= |h.blocknos| && |logged| == h.len
  {
    DiskOk(a, d) && HeaderOf(d[a.start]).len == 0 && IsAfter(a, home, h, logged, d)
  }

  /** The point of no return is behind: the transaction will survive. */
  ghost predicate Durable(a: Area, d: Disk, h: Header, logged: seq<Block>, home: Disk)
    requires h.len <= |h.blocknos| && |logged| == h.len
  {
    Committed(a, d, h, logged, home) || Finished(a, d, h, logged, home)
  }

  lemma {:induction false} InstallKeepsHeader(a: Area, d: Disk, h: Header, logged: seq<Block>, home: Disk,
                                              ws: seq<Write>)
    requires Committed(a, d, h, logged, home) && WritesFit(d, ws) && AllLogged(h, ws)
    ensures Apply(d, ws)[a.start] == d[a.start]
    decreases |ws|
  {
    if ws != [] {
      assert Logged(h, ws[0].b);
      WriteLoggedBlock(a, d, h, logged, home, ws[0].b, d[ws[0].b := ws[0].data]);
      InstallKeepsHeader(a, d[ws[0].b := ws[0].data], h, logged, home, ws[1..]);
    }
  }

  /** All logged blocks copied to their places. */
  lemma InstallAll(a: Area, d: Disk, h: Header, logged: seq<Block>, home: Disk)
    requires Committed(a, d, h, logged, home)
    ensures WritesFit(d, InstallWrites(h, logged)) && AllLogged(h, InstallWrites(h, logged))
    ensures var d1 := Apply(d, InstallWrites(h, logged));
            Committed(a, d1, h, logged, home) && IsAfter(a, home, h, logged, d1) && d1[a.start] == d[a.start]
  {
    assert logged[..h.len] == logged;
    InstallApplied(a, d, h, logged, h.len);
    InstallKeepsCommitted(a, d, h, logged, home, InstallWrites(h, logged));
    InstallKeepsHeader(a, d, h, logged, home, InstallWrites(h, logged));
  }

  lemma EmptyFinishes(a: Area, d: Disk, h: Header, logged: seq<Block>, home: Disk)
    requires Committed(a, d, h, logged, home) && IsAfter(a, home, h, logged, d)
    ensures Finished(a, d[a.start := PutEmpty(d[a.start])], h, logged, home)
  {
    EmptyKeepsBlocknos(d[a.start]);
  }

  /** Copying the logged blocks to their places and emptying the header, or crashing in the midst of it. */
  lemma FinishCommitted(a: Area, d: Disk, h: Header, logged: seq<Block>, home: Disk)
    requires Committed(a, d, h, logged, home)
    ensures var ws := InstallWrites(h, logged) + [Write(a.start, PutEmpty(d[a.start]))];
            && WritesFit(d, ws)
            && Finished(a, Apply(d, ws), h, logged, home)
            && forall e :: CrashImage(a, d, ws, e) ==> Durable(a, e, h, logged, home)
  {
    var ins, last := InstallWrites(h, logged), Write(a.start, PutEmpty(d[a.start]));
    InstallAll(a, d, h, logged, home);
    var d1 := Apply(d, ins);
    ApplyAppend(d, ins, last);
    EmptyFinishes(a, d1, h, logged, home);
    forall e | CrashImage(a, d, ins + [last], e) ensures Durable(a, e, h, logged, home) {
      CrashInBatches(a, d, ins, [last], e);
      InstallKeepsCommitted(a, d, h, logged, home, ins);
      if !CrashImage(a, d, ins, e) { CrashInOne(a, d1, last, e); }
    }
  }

  /** The header is written whole or not at all. */
  lemma CrashInOne(a: Area, d: Disk, w: Write, e: Disk)
    requires a.start < |d| && w.b == a.start && CrashImage(a, d, [w], e)
    ensures e == d || e == d[w.b := w.data]
  {
  }

  // ----- Crashes inside recovery

  /** A crash in recovery from `d` may leave the disk `m`. */
  ghost predicate NextDisk(a: Area, d: Disk, m: Disk)
    requires DiskOk(a, d)
  {
    DiskOk(a, m) && CrashImage(a, d, RecoverWrites(a, d), m)
  }

  /** `e` is what `k` crashes leave of `d`, each inside a run of `recover` on what the one before left. */
  ghost predicate AfterCrashes(a: Area, d: Disk, k: nat, e: Disk)
    requires DiskOk(a, d)
    decreases k
  {
    if k == 0 then e == d else exists m :: NextDisk(a, d, m) && AfterCrashes(a, m, k - 1, e)
  }

  lemma {:induction false} QuietStays(a: Area, d: Disk, home: Disk, k: nat, e: Disk)
    requires Quiet(a, d, home) && AfterCrashes(a, d, k, e)
    ensures DiskOk(a, e) && SameHome(a, Recovered(a, e), home)
    decreases k
  {
    if k > 0 {
      var m :| NextDisk(a, d, m) && AfterCrashes(a, m, k - 1, e);
      assert m == d;
      QuietStays(a, m, home, k - 1, e);
    }
  }

  lemma DurableStays(a: Area, d: Disk, h: Header, logged: seq<Block>, home: Disk, k: nat, e: Disk)
    requires h.len <= |h.blocknos| && |logged| == h.len && h.len > 0
    requires Durable(a, d, h, logged, home) && AfterCrashes(a, d, k, e)
    ensures DiskOk(a, e) && IsAfter(a, home, h, logged, Recovered(a, e))
  {
    SteadyStays(a, d, h, logged, home, k, e);
    DurableIsAfter(a, e, h, logged, home);
  }

  /** `Durable` for this disk. */
  ghost predicate Steady(a: Area, d: Disk, h: Header, logged: seq<Block>, home: Disk)
    requires h.len <= |h.blocknos| && |logged| == h.len
  {
    forall x {:trigger Durable(a, x, h, logged, home)} :: x == d ==> Durable(a, x, h, logged, home)
  }

  lemma SteadyNext(a: Area, d: Disk, h: Header, logged: seq<Block>, home: Disk, k: nat, e: Disk) returns (m: Disk)
    requires h.len <= |h.blocknos| && |logged| == h.len && h.len > 0 && DiskOk(a, d)
    requires Steady(a, d, h, logged, home) && k > 0 && AfterCrashes(a, d, k, e)
    ensures DiskOk(a, m) && Steady(a, m, h, logged, home) && AfterCrashes(a, m, k - 1, e)
  {
    m :| NextDisk(a, d, m) && AfterCrashes(a, m, k - 1, e);
    DurableNext(a, d, h, logged, home, m);
  }

  lemma {:induction false} SteadyStays(a: Area, d: Disk, h: Header, logged: seq<Block>, home: Disk, k: nat, e: Disk)
    requires h.len <= |h.blocknos| && |logged| == h.len && h.len > 0 && DiskOk(a, d)
    requires Steady(a, d, h, logged, home) && AfterCrashes(a, d, k, e)
    ensures Steady(a, e, h, logged, home) && DiskOk(a, e)
    decreases k
  {
    if k > 0 {
      var m := SteadyNext(a, d, h, logged, home, k, e);
      SteadyStays(a, m, h, logged, home, k - 1, e);
    }
  }

  lemma DurableIsAfter(a: Area, d: Disk, h: Header, logged: seq<Block>, home: Disk)
    requires h.len <= |h.blocknos| && |logged| == h.len && h.len > 0 && Durable(a, d, h, logged, home) && DiskOk(a, d)
    ensures IsAfter(a, home, h, logged, Recovered(a, d))
  {
    if Committed(a, d, h, logged, home) { FinishCommitted(a, d, h, logged, home); }
  }

  /** A crash in recovery leaves what is durable durable. */
  lemma DurableNext(a: Area, d: Disk, h: Header, logged: seq<Block>, home: Disk, m: Disk)
    requires h.len <= |h.blocknos| && |logged| == h.len && h.len > 0 && Steady(a, d, h, logged, home) && DiskOk(a, d)
    requires NextDisk(a, d, m)
    ensures Steady(a, m, h, logged, home)
  {
    assert Durable(a, d, h, logged, home);
    if Committed(a, d, h, logged, home) { FinishCommitted(a, d, h, logged, home); }
  }

  // ----- Crashes inside commit

  /** The disk just after the header has reached it. */
  lemma HeaderCommits(a: Area, d: Disk, h: Header, logged: seq<Block>)
    requires DiskOk(a, d) && HeaderOf(d[a.start]).len == 0
    requires HeaderOk(a, |d|, h) && |logged| == h.len
    ensures WritesFit(d, CopyWrites(a, logged))
    ensures var d1 := Apply(d, CopyWrites(a, logged));
            d1[a.start] == d[a.start] && Committed(a, d1[a.start := PutHeader(d[a.start], h)], h, logged, d)
  {
    assert logged[..h.len] == logged;
    CopyApplied(a, d, logged, h.len);
    HeaderRoundTrip(d[a.start], h);
    var d1 := Apply(d, CopyWrites(a, logged));
    assert Copies(a, d1[a.start := PutHeader(d[a.start], h)], h.len) == Copies(a, d1, h.len);
  }

  /** A crash in `commit` leaves the old disk, or a disk from which the whole transaction can be recovered. */
  lemma CrashInCommit(a: Area, d: Disk, h: Header, logged: seq<Block>, e: Disk)
    requires DiskOk(a, d) && HeaderOf(d[a.start]).len == 0
    requires HeaderOk(a, |d|, h) && |logged| == h.len
    requires WritesFit(d, CommitWrites(a, d, h, logged)) && CrashImage(a, d, CommitWrites(a, d, h, logged), e)
    ensures Quiet(a, e, d) || Durable(a, e, h, logged, d)
  {
    var copy, head, ins := CopyWrites(a, logged), PutHeader(d[a.start], h), InstallWrites(h, logged);
    var rest := ins + [Write(a.start, PutEmpty(head))];
    assert CommitWrites(a, d, h, logged) == copy + ([Write(a.start, head)] + rest);
    CrashInBatches(a, d, copy, [Write(a.start, head)] + rest, e);
    CopyKeepsQuiet(a, d, copy, d);
    HeaderCommits(a, d, h, logged);
    var d1 := Apply(d, copy);
    if !CrashImage(a, d, copy, e) {
      assert ([Write(a.start, head)] + rest)[1..] == rest;
      if e != d1 {
        assert CrashImage(a, d1[a.start := head], rest, e);
        FinishCommitted(a, d1[a.start := head], h, logged, d);
      }
    }
  }

  /** Crash atomicity: after a crash anywhere in `commit` and any number of crashes in `recover`, the recovered disk
    * outside the log is the disk before the transaction, or that disk with every logged block replaced. */
  lemma CommitIsAtomic(a: Area, d: Disk, h: Header, logged: seq<Block>, d1: Disk, k: nat, d2: Disk)
    requires DiskOk(a, d) && HeaderOf(d[a.start]).len == 0
    requires HeaderOk(a, |d|, h) && |logged| == h.len > 0
    requires WritesFit(d, CommitWrites(a, d, h, logged)) && CrashImage(a, d, CommitWrites(a, d, h, logged), d1)
    requires DiskOk(a, d1) ==> AfterCrashes(a, d1, k, d2)
    ensures DiskOk(a, d1) && DiskOk(a, d2)
    ensures SameHome(a, Recovered(a, d2), d) || IsAfter(a, d, h, logged, Recovered(a, d2))
  {
    CrashInCommit(a, d, h, logged, d1);
    if Quiet(a, d1, d) {
      QuietStays(a, d1, d, k, d2);
    } else {
      DurableStays(a, d1, h, logged, d, k, d2);
    }
  }

  /** The writes of `commit` up to the header lead to a disk that `recover` could start from. */
  lemma CommitInTwo(a: Area, d: Disk, h: Header, logged: seq<Block>)
    requires DiskOk(a, d) && HeaderOf(d[a.start]).len == 0
    requires HeaderOk(a, |d|, h) && |logged| == h.len
    ensures WritesFit(d, CommitWrites(a, d, h, logged))
    ensures WritesFit(d, CopyWrites(a, logged))
    ensures var d1 := Apply(d, CopyWrites(a, logged))[a.start := PutHeader(d[a.start], h)];
            && WritesFit(d1, InstallWrites(h, logged))
            && Apply(d, CommitWrites(a, d, h, logged))
               == Apply(d1, InstallWrites(h, logged) + [Write(a.start, PutEmpty(d1[a.start]))])
  {
    var copy, head, ins := CopyWrites(a, logged), PutHeader(d[a.start], h), InstallWrites(h, logged);
    var rest := ins + [Write(a.start, PutEmpty(head))];
    assert CommitWrites(a, d, h, logged) == (copy + [Write(a.start, head)]) + rest;
    ApplyAppend(d, copy, Write(a.start, head));
    ApplyConcat(d, copy + [Write(a.start, head)], rest);
  }

  /** Without a crash `commit` installs the whole transaction and leaves an empty log. */
  lemma CommitInstalls(a: Area, d: Disk, h: Header, logged: seq<Block>)
    requires DiskOk(a, d) && HeaderOf(d[a.start]).len == 0
    requires HeaderOk(a, |d|, h) && |logged| == h.len
    ensures WritesFit(d, CommitWrites(a, d, h, logged))
    ensures Finished(a, Apply(d, CommitWrites(a, d, h, logged)), h, logged, d)
  {
    CommitInTwo(a, d, h, logged);
    HeaderCommits(a, d, h, logged);
    FinishCommitted(a, Apply(d, CopyWrites(a, logged))[a.start := PutHeader(d[a.start], h)], h, logged, d);
  }
}
