/** Writing the image: flash_file and guarded_flash_file of src/firmware_update.c over the bytes of
    the flash device.  Every call into the system may fail, and read() and write() may be short.
    The MD5 digest is taken as injective: comparing digests is comparing bytes. */
module FlashWriter {
  import opened Bytes

  const ERASED: Byte := 255
  const FLASH_BLOCK := 4096

  // ------------------------------------------------------------------ the device

  const U32 := 0x1_0000_0000

  /** Bytes to erase, in the arithmetic of a 32-bit target: the sum wraps around, and neither the
      quotient nor the product can. */
  function EraseLength(imageSize: nat, eraseSize: nat): nat
    requires eraseSize > 0
  {
    var blocks: nat := (imageSize + eraseSize - 1) % U32 / eraseSize;
    NotNegative(blocks, eraseSize);
    blocks * eraseSize
  }

  lemma NotNegative(a: nat, b: nat)
    ensures a * b >= 0
  {
  }

  /** The sum does not wrap around. */
  predicate SumFits(imageSize: nat, eraseSize: nat) {
    imageSize + eraseSize - 1 < U32
  }

  lemma Multiple(q: int, d: int)
    requires d > 0
    ensures q * d % d == 0
  {
    var p: int, r: int := q * d / d, q * d % d;
    assert q * d == p * d + r;
    assert (q - p) * d == r;
    assert q - p >= 1 ==> (q - p) * d >= d;
    assert q - p <= -1 ==> (q - p) * d <= -d;
  }

  lemma RoundedUp(n: nat, d: nat)
    requires d > 0
    ensures var r := (n + d - 1) / d * d; n <= r < n + d && r % d == 0
  {
    Multiple((n + d - 1) / d, d);
  }

  lemma NoMoreBlocks(n: nat, d: nat, m: nat)
    requires d > 0 && n <= m * d
    ensures (n + d - 1) / d * d <= m * d
  {
    var q := (n + d - 1) / d;
    assert q * d < m * d + d == (m + 1) * d;
    assert q >= m + 1 ==> q * d >= (m + 1) * d;
    assert q <= m ==> q * d <= m * d;
  }

  lemma NothingToErase(sum: nat, d: nat)
    requires sum < d
    ensures sum / d * d == 0
  {
    assert sum / d == 0;
  }

  /** For every valid geometry whole blocks of the device are erased.  They cover the image, and no
      block beyond its last one, if and only if the sum does not wrap around; when it does, nothing
      is erased at all. */
  lemma EraseLengthIsRoundedUp(imageSize: nat, eraseSize: nat, size: nat)
    requires 0 < eraseSize < U32 && size % eraseSize == 0 && size < U32 && imageSize <= size
    ensures var n := EraseLength(imageSize, eraseSize);
            && n <= size && n % eraseSize == 0
            && (imageSize <= n < imageSize + eraseSize <==> SumFits(imageSize, eraseSize))
            && (!SumFits(imageSize, eraseSize) ==> n == 0 < imageSize)
  {
    var m := size / eraseSize;
    assert size == m * eraseSize;
    if SumFits(imageSize, eraseSize) {
      RoundedUp(imageSize, eraseSize);
      NoMoreBlocks(imageSize, eraseSize, m);
    } else {
      NothingToErase((imageSize + eraseSize - 1) % U32, eraseSize);
    }
  }

  /** Such a geometry exists: one block of 4 GB less 1 MB. */
  lemma NothingIsErased()
    ensures EraseLength(0x10_0001, 0xFFF0_0000) == 0 && !SumFits(0x10_0001, 0xFFF0_0000)
  {
    EraseLengthIsRoundedUp(0x10_0001, 0xFFF0_0000, 0xFFF0_0000);
  }

  /** What the flash holds after `erased` bytes were erased and then `written` bytes written. */
  ghost predicate Blended(now: seq<Byte>, was: seq<Byte>, image: seq<Byte>, program: (Byte, Byte) -> Byte,
                          erased: nat, written: nat)
  {
    && |now| == |was| && erased <= |was| && written <= |was| && written <= |image|
    && forall k | 0 <= k < |now| ::
         now[k] == if k < written then (if k < erased then image[k] else program(was[k], image[k]))
                   else if k < erased then ERASED else was[k]
  }

  /** Writing to an erased cell leaves what is written, and to any other cell some mixture. */
  ghost predicate Programs(program: (Byte, Byte) -> Byte) {
    forall b :: program(ERASED, b) == b
  }

  /** An MTD device, with the number of erase and write calls made on it. */
  class Flash {
    const size: nat
    const eraseSize: nat
    const cells: array<Byte>
    const program: (Byte, Byte) -> Byte
    var calls: nat

    ghost predicate Valid() {
      && cells.Length == size < U32 && eraseSize < U32
      && (eraseSize > 0 ==> size % eraseSize == 0)
      && Programs(program)
    }

    constructor (cells: array<Byte>, eraseSize: nat, program: (Byte, Byte) -> Byte)
      requires cells.Length < U32 && eraseSize < U32 && (eraseSize > 0 ==> cells.Length % eraseSize == 0)
      requires Programs(program)
      ensures Valid() && this.cells == cells && calls == 0
    {
      this.cells, this.eraseSize, this.program, size, calls := cells, eraseSize, program, cells.Length, 0;
    }

    /** MEMERASE of one block. */
    method EraseBlock(start: nat, fails: bool) returns (ok: bool)
      requires Valid()
      modifies `calls, cells
      ensures calls == old(calls) + 1
      ensures ok == (!fails && start + eraseSize <= size)
      ensures forall k | 0 <= k < size ::
                cells[k] == if ok && start <= k < start + eraseSize then ERASED else old(cells[k])
    {
      calls := calls + 1;
      if fails || start + eraseSize > size { return false; }
      forall k | start <= k < start + eraseSize { cells[k] := ERASED; }
      return true;
    }

    /** write() at position `at`: the number of bytes taken, 0 for an error or a full device. */
    method Write(at: nat, data: seq<Byte>, most: nat, fails: bool) returns (n: nat)
      requires Valid()
      modifies `calls, cells
      ensures calls == old(calls) + 1
      ensures n <= |data| && at + n <= at + |data| && (n > 0 ==> at + n <= size)
      ensures n == 0 <==> fails || |data| == 0 || at >= size
      ensures forall k | 0 <= k < size ::
                cells[k] == if at <= k < at + n then program(old(cells[k]), data[k - at]) else old(cells[k])
    {
      calls := calls + 1;
      if fails || |data| == 0 || at >= size { return 0; }
      n := if most == 0 then 1 else if most < |data| then most else |data|;
      if n > size - at { n := size - at; }
      forall k | at <= k < at + n { cells[k] := program(cells[k], data[k - at]); }
    }
  }

  // -------------------------------------------------------------------- one flash

  datatype Fsync = Synced | Unsupported | SyncFailed

  /** How the system behaves: calls that fail, blocks that do not erase, positions at which read()
      or write() fails, and how many bytes they move at most. */
  datatype System = System(
    openImage: bool, openFlash: bool, memGetInfo: bool, guardWrites: set<GuardState>, unmount: bool,
    badBlocks: set<nat>, seek: bool, readFails: set<nat>, writeFails: set<nat>,
    readCuts: nat -> nat, writeCuts: nat -> nat, fsync: Fsync, hash: bool, reboot: bool,
    stopDaemons: bool, disarm: bool, unlink: bool)

  datatype GuardState = Absent | Foreign | Prepare | Flashing | Verifying | Complete

  function Taken(position: nat, length: nat, cuts: nat -> nat): (n: nat)
    requires position < length
    ensures 1 <= n <= FLASH_BLOCK && position + n <= length
  {
    var most := if cuts(position) == 0 then 1 else cuts(position);
    var left := length - position;
    var n := if most < left then most else left;
    if n < FLASH_BLOCK then n else FLASH_BLOCK
  }

  /** No call fails; short reads and writes are no failures. */
  predicate Faultless(sys: System) {
    && sys.openImage && sys.openFlash && sys.memGetInfo && sys.unmount && sys.seek && sys.hash && sys.reboot
    && sys.badBlocks == sys.readFails == sys.writeFails == {} && sys.fsync != SyncFailed
    && {Prepare, Flashing} <= sys.guardWrites && sys.stopDaemons && sys.disarm
  }

  /** The guard of a finished flash: the last state that could be written. */
  function Finished(sys: System): GuardState {
    if Complete in sys.guardWrites then Complete else if Verifying in sys.guardWrites then Verifying else Flashing
  }

  class Updater {
    const flash: Flash
    const sys: System
    var guard: GuardState

    constructor (flash: Flash, sys: System, guard: GuardState)
      requires guard == Absent || guard == Foreign
      ensures this.flash == flash && this.sys == sys && this.guard == guard
    {
      this.flash, this.sys, this.guard := flash, sys, guard;
    }

    /** ota_guard_write_state without `exclusive`: a rename over the guard file. */
    method WriteGuard(to: GuardState) returns (ok: bool)
      modifies this
      ensures ok == (to in sys.guardWrites) && guard == if ok then to else old(guard)
    {
      ok := to in sys.guardWrites;
      if ok { guard := to; }
    }

    /** The erase loop. */
    method Erase(eraseLength: nat) returns (ok: bool, ghost erased: nat)
      requires flash.Valid() && flash.eraseSize > 0
      requires eraseLength <= flash.size && eraseLength % flash.eraseSize == 0
      modifies flash`calls, flash.cells
      ensures erased <= eraseLength && (ok ==> erased == eraseLength)
      ensures erased % flash.eraseSize == 0
      ensures !ok ==> erased in sys.badBlocks
      ensures Blended(flash.cells[..], old(flash.cells[..]), [], flash.program, erased, 0)
    {
      ghost var was := flash.cells[..];
      var start := 0;
      while start < eraseLength
        invariant start <= flash.size && start % flash.eraseSize == 0
        invariant start <= eraseLength
        invariant forall k | 0 <= k < flash.size :: flash.cells[k] == if k < start then ERASED else was[k]
        decreases eraseLength - start
      {
        NextBlock(start, eraseLength, flash.eraseSize);
        ok := flash.EraseBlock(start, start in sys.badBlocks);
        if !ok { return false, start; }
        start := start + flash.eraseSize;
      }
      return true, start;
    }

    /** The inner loop: all of `buf` to flash position `at`. */
    method WriteAll(at: nat, buf: seq<Byte>) returns (ok: bool, ghost written: nat)
      requires flash.Valid()
      modifies flash`calls, flash.cells
      ensures written <= |buf| && (ok ==> written == |buf|)
      ensures !ok ==> written < |buf| && (at + written in sys.writeFails || at + written >= flash.size)
      ensures written > 0 ==> at + written <= flash.size
      ensures forall k | 0 <= k < flash.size ::
                flash.cells[k] == if at <= k < at + written then flash.program(old(flash.cells[k]), buf[k - at])
                                  else old(flash.cells[k])
    {
      var off := 0;
      while off < |buf|
        invariant off <= |buf| && (off > 0 ==> at + off <= flash.size)
        invariant forall k | 0 <= k < flash.size ::
                    flash.cells[k] == if at <= k < at + off then flash.program(old(flash.cells[k]), buf[k - at])
                                      else old(flash.cells[k])
      {
        var w := flash.Write(at + off, buf[off..], sys.writeCuts(at + off), at + off in sys.writeFails);
        if w == 0 { return false, off; }
        off := off + w;
      }
      return true, off;
    }

    /** The loop over the image file. */
    method Copy(image: seq<Byte>, ghost erased: nat) returns (ok: bool, ghost written: nat)
      requires flash.Valid() && erased <= flash.size
      requires forall k | 0 <= k < erased :: flash.cells[k] == ERASED
      modifies flash`calls, flash.cells
      ensures written <= |image| && (ok ==> written == |image|) && written <= flash.size
      ensures !ok ==> written < |image| && (written in sys.readFails || written in sys.writeFails || written >= flash.size)
      ensures forall k | 0 <= k < flash.size ::
                flash.cells[k] == if k < written then (if k < erased then image[k] else flash.program(old(flash.cells[k]), image[k]))
                                  else old(flash.cells[k])
    {
      var at := 0;
      while at < |image|
        invariant at <= |image| && at <= flash.size
        invariant forall k | 0 <= k < flash.size ::
                    flash.cells[k] == if k < at then (if k < erased then image[k] else flash.program(old(flash.cells[k]), image[k]))
                                      else old(flash.cells[k])
      {
        if at in sys.readFails { return false, at; }
        var n := Taken(at, |image|, sys.readCuts);
        var done: bool;
        ghost var more: nat;
        done, more := WriteAll(at, image[at..at + n]);
        if !done { return false, at + more; }
        at := at + n;
      }
      return true, at;
    }

    /** The part of flash_file from the erase on; `touched` is already set. */
    method EraseAndCopy(image: seq<Byte>, eraseLength: nat) returns (ok: bool, ghost erased: nat, ghost written: nat)
      requires flash.Valid() && flash.eraseSize > 0
      requires eraseLength <= flash.size && eraseLength % flash.eraseSize == 0
      modifies flash`calls, flash.cells
      ensures erased <= eraseLength && written <= |image|
      ensures written > 0 ==> erased == eraseLength
      ensures ok ==> erased == eraseLength && written == |image|
      ensures sys.seek && sys.badBlocks == sys.readFails == sys.writeFails == {} && |image| <= flash.size ==> ok
      ensures Blended(flash.cells[..], old(flash.cells[..]), image, flash.program, erased, written)
    {
      ghost var was := flash.cells[..];
      written := 0;
      ok, erased := Erase(eraseLength);
      if !ok || !sys.seek { return false, erased, 0; }
      ok, written := Copy(image, erased);
    }

    /** Nothing stands between flash_file and the first erase. */
    ghost predicate Reaches(imageSize: nat)
      reads this, flash
    {
      && sys.openImage && sys.openFlash && sys.memGetInfo && flash.eraseSize > 0 && imageSize <= flash.size
      && Flashing in sys.guardWrites && sys.unmount
    }

    /** flash_file: `image` is what reading the file yields, `imageSize` its size as found before.
        0 is success. */
    method FlashFile(image: seq<Byte>, imageSize: nat, expected: seq<Byte>, rebootAfter: bool)
        returns (rc: int, touched: bool, ghost erased: nat, ghost written: nat)
      requires flash.Valid()
      modifies this, flash`calls, flash.cells
      ensures !touched ==> rc != 0 && flash.cells[..] == old(flash.cells[..]) && flash.calls == old(flash.calls)
      ensures touched ==>
                && flash.eraseSize > 0 && imageSize <= flash.size && guard in {Flashing, Verifying, Complete}
                && erased <= EraseLength(imageSize, flash.eraseSize)
                && (written > 0 ==> erased == EraseLength(imageSize, flash.eraseSize))
                && Blended(flash.cells[..], old(flash.cells[..]), image, flash.program, erased, written)
      ensures rc == 0 ==>
                && written == |image| && erased == EraseLength(imageSize, flash.eraseSize)
                && flash.cells[..imageSize] == expected && guard == Finished(sys)
      ensures touched && !SumFits(imageSize, flash.eraseSize) ==> erased == 0 < imageSize
      ensures Faultless(sys) && flash.eraseSize > 0 && |image| == imageSize <= flash.size ==>
                expected == image && SumFits(imageSize, flash.eraseSize) ==> rc == 0
      ensures guard in {old(guard), Flashing, Verifying, Complete}
      ensures touched <==> Reaches(imageSize)
    {
      rc, touched, erased, written := -1, false, 0, 0;
      if !sys.openImage || !sys.openFlash || !sys.memGetInfo { return; }
      if flash.eraseSize == 0 || imageSize > flash.size { return; }
      EraseLengthIsRoundedUp(imageSize, flash.eraseSize, flash.size);
      var eraseLength := EraseLength(imageSize, flash.eraseSize);
      var ok := WriteGuard(Flashing);
      if !ok || !sys.unmount { return; }
      touched := true;
      ok, erased, written := EraseAndCopy(image, eraseLength);
      if ok && |image| == imageSize && SumFits(imageSize, flash.eraseSize) {
        WritesLandInErasedBlocks(flash.cells[..], old(flash.cells[..]), image, flash.program, erased, written);
      }
      if !ok || sys.fsync == SyncFailed { return; }
      ok := WriteGuard(Verifying);
      if !sys.hash { return; }
      if flash.cells[..imageSize] != expected { return; }
      ok := WriteGuard(Complete);
      if rebootAfter && !sys.reboot { return; }
      rc := 0;
    }

    /** ota_guard_cancel. */
    method CancelGuard()
      modifies this
      ensures guard == if sys.unlink then Absent else old(guard)
    {
      if sys.unlink { guard := Absent; }
    }

    /** ota_guard_begin: the exclusive link, then the daemons and the watchdog. */
    method BeginGuard() returns (ok: bool)
      modifies this
      ensures ok ==> old(guard) == Absent && guard == Prepare
      ensures ok <==> Prepare in sys.guardWrites && old(guard) == Absent && sys.stopDaemons && sys.disarm
      ensures old(guard) != Absent ==> guard == old(guard)
      ensures !ok && old(guard) == Absent ==>
                guard == if Prepare in sys.guardWrites && !sys.unlink then Prepare else Absent
    {
      if Prepare !in sys.guardWrites || guard != Absent { return false; }
      guard := Prepare;
      if !sys.stopDaemons || !sys.disarm {
        CancelGuard();
        return false;
      }
      return true;
    }

    /** guarded_flash_file.  Success means the image is in flash under a guard that stays; a guard
        that is gone, or was never taken, means that no block was erased or written; a run that
        stops before the first erase gives its guard back, unless it cannot be removed; and whatever
        fails after the first erase, the flash holds a prefix of the image in erased
        blocks, with everything behind those blocks as it was. */
    method GuardedFlashFile(image: seq<Byte>, imageSize: nat, expected: seq<Byte>, rebootAfter: bool)
        returns (rc: int, ghost erased: nat, ghost written: nat)
      requires flash.Valid() && (guard == Absent || guard == Foreign)
      modifies this, flash`calls, flash.cells
      ensures guard == Absent || guard == Foreign || guard == Prepare ==>
                flash.cells[..] == old(flash.cells[..]) && flash.calls == old(flash.calls)
      ensures old(guard) == Foreign ==> guard == Foreign && rc != 0
      ensures old(guard) == Absent ==>
                var begun := Prepare in sys.guardWrites;
                var reached := begun && sys.stopDaemons && sys.disarm && Reaches(imageSize);
                && (reached ==> guard in {Flashing, Verifying, Complete})
                && (!reached ==> rc != 0 && (guard == Absent <==> sys.unlink || !begun))
      ensures flash.cells[..] != old(flash.cells[..]) ==>
                && flash.eraseSize > 0 && imageSize <= flash.size
                && erased <= EraseLength(imageSize, flash.eraseSize)
                && (written > 0 ==> erased == EraseLength(imageSize, flash.eraseSize))
      ensures Blended(flash.cells[..], old(flash.cells[..]), image, flash.program, erased, written)
      ensures rc == 0 ==>
                && guard == Finished(sys)
                && imageSize <= flash.size && flash.cells[..imageSize] == expected && written == |image|
      ensures Faultless(sys) && old(guard) == Absent && flash.eraseSize > 0 && |image| == imageSize <= flash.size ==>
                expected == image && SumFits(imageSize, flash.eraseSize) ==> rc == 0
      ensures flash.calls != old(flash.calls) && !SumFits(imageSize, flash.eraseSize) ==> erased == 0 < imageSize
    {
      erased, written := 0, 0;
      var ok := BeginGuard();
      if !ok { return -1, 0, 0; }
      var touched: bool;
      rc, touched, erased, written := FlashFile(image, imageSize, expected, rebootAfter);
      if !touched { erased, written := 0, 0; }
      if rc != 0 && !touched { CancelGuard(); }
    }
  }

  // ------------------------------------------------------- what a blend amounts to

  /** As long as the file is no longer than the erased blocks, every byte written is the image's:
      the flash is a prefix of the image, erased cells, and what was there before. */
  lemma WritesLandInErasedBlocks(now: seq<Byte>, was: seq<Byte>, image: seq<Byte>, program: (Byte, Byte) -> Byte,
                                 erased: nat, written: nat)
    requires Blended(now, was, image, program, erased, written) && written <= erased
    ensures now == image[..written] + seq(erased - written, _ => ERASED) + was[erased..]
    ensures now[..written] == image[..written]
  {
  }

  /** What the flash holds when success is reported for a file of the size that was found. */
  ghost predicate Reported(now: seq<Byte>, was: seq<Byte>, image: seq<Byte>, program: (Byte, Byte) -> Byte,
                           eraseSize: nat, imageSize: nat, expected: seq<Byte>)
    requires eraseSize > 0
  {
    && Programs(program) && |image| == imageSize <= |now|
    && Blended(now, was, image, program, EraseLength(imageSize, eraseSize), |image|)
    && now[..imageSize] == expected
  }

  /** A success proves the file right: it cannot be reported for a file of the size that was found
      whose bytes differ from the expected ones, and everything behind its blocks is unchanged. */
  lemma SuccessMeansTheImage(now: seq<Byte>, was: seq<Byte>, image: seq<Byte>, program: (Byte, Byte) -> Byte,
                             eraseSize: nat, imageSize: nat, expected: seq<Byte>)
    requires |was| < U32 && 0 < eraseSize < U32 && |was| % eraseSize == 0 && imageSize <= |was|
    requires SumFits(imageSize, eraseSize)
    requires Reported(now, was, image, program, eraseSize, imageSize, expected)
    ensures image == expected
    ensures var n := EraseLength(imageSize, eraseSize);
            imageSize <= n <= |was| && now == image + seq(n - imageSize, _ => ERASED) + was[n..]
  {
    EraseLengthIsRoundedUp(imageSize, eraseSize, |was|);
    WritesLandInErasedBlocks(now, was, image, program, EraseLength(imageSize, eraseSize), |image|);
    assert image[..|image|] == image;
  }

  /** Where the sum wraps around, a flash that keeps what it held reports success for bytes it was
      not given. */
  lemma SuccessOfAnotherImage(imageSize: nat, eraseSize: nat, size: nat)
      returns (was: seq<Byte>, image: seq<Byte>, program: (Byte, Byte) -> Byte)
    requires 0 < eraseSize < U32 && size % eraseSize == 0 && size < U32 && imageSize <= size
    requires !SumFits(imageSize, eraseSize)
    ensures |was| == size && Reported(was, was, image, program, eraseSize, imageSize, was[..imageSize])
    ensures image != was[..imageSize]
  {
    EraseLengthIsRoundedUp(imageSize, eraseSize, size);
    was, image := seq(size, _ => 0), seq(imageSize, _ => 1);
    program := (held, b) => if held == ERASED then b else held;
    assert was[..imageSize][0] != image[0];
  }

  /** For every valid geometry: success always means that the file has the expected bytes if and
      only if the sum does not wrap around. */
  lemma SuccessMeansTheImageExactly(imageSize: nat, eraseSize: nat, size: nat)
    requires 0 < eraseSize < U32 && size % eraseSize == 0 && size < U32 && imageSize <= size
    ensures (forall now, was, image, program, expected ::
               |was| == size && Reported(now, was, image, program, eraseSize, imageSize, expected) ==> image == expected)
            <==> SumFits(imageSize, eraseSize)
  {
    if SumFits(imageSize, eraseSize) {
      forall now, was, image, program, expected
        | |was| == size && Reported(now, was, image, program, eraseSize, imageSize, expected)
        ensures image == expected
      {
        SuccessMeansTheImage(now, was, image, program, eraseSize, imageSize, expected);
      }
    } else {
      var was, image, program := SuccessOfAnotherImage(imageSize, eraseSize, size);
      assert Reported(was, was, image, program, eraseSize, imageSize, was[..imageSize]);
    }
  }

  lemma NextBlock(start: nat, end: nat, d: nat)
    requires d > 0 && start % d == 0 && end % d == 0 && start < end
    ensures start + d <= end && (start + d) % d == 0
  {
    var a, b := start / d, end / d;
    assert start == a * d && end == b * d;
    assert a >= b ==> a * d >= b * d;
    assert a + 1 <= b ==> (a + 1) * d <= b * d;
    assert (a + 1) * d == start + d;
    Multiple(a + 1, d);
  }
}
