/** What the buffer cache means to its users: the blocks that somebody holds or has pinned, and the disk.
  * A buffer without references holds what the disk holds, so whether it is still cached cannot be seen. */
module BlockCache {
  import opened LogSpec

  const NBUF := MAXOPBLOCKS * 3

  /** A referenced buffer; `refs` counts its handles and its pin. */
  datatype Slot = Slot(data: Block, refs: nat)

  type Held = map<nat, Slot>

  ghost predicate HeldOk(held: Held, disk: Disk) {
    forall b :: b in held ==> b < |disk| && held[b].refs > 0
  }

  /** What reading block `b` yields. */
  function View(held: Held, disk: Disk, b: nat): Block
    requires b < |disk|
  {
    if b in held then held[b].data else disk[b]
  }

  /** A buffer for `b` exists or can be had: not all of the `NBUF` buffers are referenced by others. */
  predicate CanGet(held: Held, b: nat) {
    b in held || |held| < NBUF
  }

  function Get(held: Held, disk: Disk, b: nat): Held
    requires b < |disk|
  {
    held[b := Slot(View(held, disk, b), if b in held then held[b].refs + 1 else 1)]
  }

  function Drop(held: Held, b: nat): Held
    requires b in held && held[b].refs > 0
  {
    if held[b].refs == 1 then held - {b} else held[b := Slot(held[b].data, held[b].refs - 1)]
  }

  function Pin(held: Held, b: nat): Held
    requires b in held
  {
    held[b := Slot(held[b].data, held[b].refs + 1)]
  }

  function SetData(held: Held, b: nat, data: Block): Held
    requires b in held
  {
    held[b := Slot(data, held[b].refs)]
  }

  lemma GetThenDrop(held: Held, disk: Disk, b: nat)
    requires b < |disk| && HeldOk(held, disk)
    ensures HeldOk(Get(held, disk, b), disk)
    ensures Drop(Get(held, disk, b), b) == held
  {
  }
}
