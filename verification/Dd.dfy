/**
  The data transfer of the dd command: sectors are read from one file and written to another
  through a buffer, where either side may move fewer bytes than it was asked to, or fail.
*/
module Dd {

  const UINT16 := 0x1_0000
  const UINT32 := 0x1_0000_0000

  /** The largest offset a signed 32-bit seek can name. */
  const OFF_MAX := 0x7fff_ffff

  function Min(x: int, y: int): int {
    if x < y then x else y
  }

  /** Where reading starts.  The product is taken modulo 2^32; an offset that cannot be reached
      is ignored. */
  function StartOffset(skip: nat, sectSize: nat, seekable: bool): nat {
    var offset := skip * sectSize % UINT32;
    if skip != 0 && seekable && offset <= OFF_MAX then offset else 0
  }

  /** The sectors to skip are skipped exactly when there is nothing to skip or the seek is possible. */
  lemma SkipHonoured(skip: nat, sectSize: nat, seekable: bool)
    ensures StartOffset(skip, sectSize, seekable) == skip * sectSize
       <==> skip * sectSize == 0 || (seekable && skip * sectSize <= OFF_MAX)
  {
    var offset := skip * sectSize;
    if offset < UINT32 {
      assert offset % UINT32 == offset;
    }
    if skip == 0 {
      assert offset == 0;
    }
  }

  /** A skip whose product wraps around starts at what is left of it, or at the beginning if that
      cannot be reached. */
  lemma WrappedSkip(skip: nat, sectSize: nat, seekable: bool)
    ensures var start := StartOffset(skip, sectSize, seekable);
            && (start != 0 ==> seekable && start <= 0x7fff_ffff && (skip * sectSize - start) % 0x1_0000_0000 == 0)
            && (seekable && skip * sectSize % 0x1_0000_0000 <= 0x7fff_ffff ==>
                  (skip * sectSize - start) % 0x1_0000_0000 == 0)
    ensures StartOffset(0x80_0001, 512, true) == 512
  {
    assert 0x80_0001 * 512 == UINT32 + 512;
  }

  /** The bytes that are to be copied: `count` sectors from an offset, or what there is of them. */
  function Wanted(input: seq<bv8>, start: nat, count: nat, sectSize: nat): seq<bv8> {
    var first := Min(start, |input|);
    input[first..Min(|input|, first + count * sectSize)]
  }

  /** That is, byte `i` of them is byte `start + i` of the input, for as many sectors as were
      asked for and are there. */
  lemma WantedIs(input: seq<bv8>, start: nat, count: nat, sectSize: nat)
    ensures var wanted := Wanted(input, start, count, sectSize);
            && |wanted| <= count * sectSize
            && (start + count * sectSize <= |input| ==> |wanted| == count * sectSize)
            && (start <= |input| < start + count * sectSize ==> |wanted| == |input| - start)
            && (start > |input| ==> wanted == [])
            && forall i :: 0 <= i < |wanted| ==> wanted[i] == input[start + i]
  {
  }

  class Transfer {
    const input: seq<bv8>
    const sectSize: nat
    const nSectors: nat
    const skip: nat
    const seekable: bool
    const buffer: array<bv8>

    var inPos: nat
    var output: seq<bv8>
    var nbytes: int
    var eof: bool

    /** Whether a read or a write has failed so far. */
    ghost var failed: bool

    ghost predicate Valid() {
      && sectSize < UINT16 && nSectors < UINT32 && skip < UINT32
      && buffer.Length == sectSize
    }

    constructor (input: seq<bv8>, sectSize: nat, nSectors: nat, skip: nat, seekable: bool)
      requires sectSize < UINT16 && nSectors < UINT32 && skip < UINT32
      ensures Valid() && fresh(buffer)
      ensures this.input == input && this.sectSize == sectSize && this.nSectors == nSectors
      ensures this.skip == skip && this.seekable == seekable
      ensures inPos == 0 && output == [] && nbytes == 0 && !eof && !failed
    {
      this.input, this.sectSize, this.nSectors := input, sectSize, nSectors;
      this.skip, this.seekable := skip, seekable;
      buffer := new bv8[sectSize];
      inPos, output, nbytes, eof, failed := 0, [], 0, false, false;
    }

    function Left(): (n: nat)
      reads this
    {
      if inPos < |input| then |input| - inPos else 0
    }

    /** read(): some of the bytes asked for, none only at the end of the file, or an error. */
    method Read(at: nat, want: nat) returns (n: int)
      requires at + want <= buffer.Length
      modifies buffer, `inPos, `failed
      ensures failed == (old(failed) || n < 0)
      ensures n < 0 ==> inPos == old(inPos)
      ensures n >= 0 ==> n <= Min(want, old(Left())) && inPos == old(inPos) + n
      ensures n == 0 ==> want == 0 || old(Left()) == 0
      ensures forall i :: 0 <= i < at ==> buffer[i] == old(buffer[i])
      ensures forall i :: at <= i < at + n ==> buffer[i] == input[old(inPos) + i - at]
    {
      var fails: bool := *;
      if fails {
        failed := true;
        return -1;
      }
      var most := Min(want, Left());
      if most == 0 {
        return 0;
      }
      n :| 1 <= n <= most;
      forall i | 0 <= i < n {
        buffer[at + i] := input[inPos + i];
      }
      inPos := inPos + n;
    }

    /** write(): some of the bytes given, at least one if there are any, or an error. */
    method Write(at: nat, want: nat) returns (n: int)
      requires at + want <= buffer.Length
      modifies `output, `failed
      ensures failed == (old(failed) || n < 0)
      ensures n <= want && (n == 0 ==> want == 0)
      ensures output == old(output) + if n < 0 then [] else buffer[at..at + n]
    {
      var fails: bool := *;
      if fails {
        failed := true;
        return -1;
      }
      if want == 0 {
        return 0;
      }
      n :| 1 <= n <= want;
      output := output + buffer[at..at + n];
    }

    /** dd_read: however short the reads, a sector is full unless the input ends. */
    method ReadSector() returns (ok: bool)
      requires Valid()
      modifies buffer, `inPos, `nbytes, `eof, `failed
      ensures failed == (old(failed) || !ok)
      ensures !ok ==> eof == old(eof)
      ensures ok ==> 0 <= nbytes == Min(sectSize, old(Left())) && inPos == old(inPos) + nbytes
      ensures ok && nbytes > 0 ==> buffer[..nbytes] == input[old(inPos)..inPos]
      ensures ok ==> eof == (old(eof) || nbytes == 0)
    {
      nbytes := 0;
      var more := true;
      while more
        invariant 0 <= nbytes <= sectSize && inPos == old(inPos) + nbytes
        invariant nbytes > 0 ==> inPos <= |input|
        invariant forall i :: 0 <= i < nbytes ==> buffer[i] == input[old(inPos) + i]
        invariant !more ==> nbytes == sectSize || Left() == 0
        invariant eof == old(eof) && failed == old(failed)
        decreases more, sectSize - nbytes
      {
        var n := Read(nbytes, sectSize - nbytes);
        if n < 0 {
          return false;
        }
        nbytes := nbytes + n;
        more := nbytes < sectSize && n > 0;
      }
      eof := eof || nbytes == 0;
      if nbytes > 0 {
        assert forall i :: 0 <= i < nbytes ==> buffer[..nbytes][i] == input[old(inPos)..inPos][i];
      }
      ok := true;
    }

    /** dd_write: however short the writes, the whole buffer is written, or a beginning of it. */
    method WriteSector() returns (ok: bool)
      requires Valid() && 0 <= nbytes <= sectSize
      modifies `output, `failed
      ensures failed == (old(failed) || !ok)
      ensures ok ==> output == old(output) + buffer[..nbytes]
      ensures !ok ==> old(output) <= output <= old(output) + buffer[..nbytes]
    {
      var written := 0;
      var more := true;
      while more
        invariant 0 <= written <= nbytes
        invariant output == old(output) + buffer[..written]
        invariant !more ==> written == nbytes
        invariant failed == old(failed)
        decreases more, nbytes - written
      {
        var n := Write(written, nbytes - written);
        if n < 0 {
          return false;
        }
        assert buffer[..written + n] == buffer[..written] + buffer[written..written + n];
        written := written + n;
        more := written < nbytes;
      }
      ok := true;
    }

    /** The seek before the transfer, whose failure goes unnoticed. */
    method Seek()
      requires Valid() && inPos == 0
      modifies `inPos
      ensures inPos == StartOffset(skip, sectSize, seekable)
    {
      if skip != 0 {
        var offset := skip * sectSize % UINT32;
        if seekable && offset <= OFF_MAX {
          inPos := offset;
        }
      }
    }

    /**
      The transfer of cmd_dd. It succeeds exactly if no read and no write fails, and then the
      wanted bytes are written, neither more nor less; otherwise a beginning of them.
    */
    method Copy() returns (ok: bool)
      requires Valid() && inPos == 0 && output == [] && !eof && !failed
      modifies this, buffer
      ensures ok == !failed
      ensures var wanted := Wanted(input, StartOffset(skip, sectSize, seekable), nSectors, sectSize);
              if ok then output == wanted else output <= wanted
    {
      hide Wanted, StartOffset;
      Seek();
      ghost var start := inPos;
      ghost var first := Min(start, |input|);
      StartsAtFirst(input, start, nSectors, sectSize);
      var sector := 0;
      while !eof && sector < nSectors
        invariant sector <= nSectors
        invariant output == Wanted(input, first, sector, sectSize)
        invariant inPos == start + |output| && first + |output| <= |input|
        invariant start > |input| ==> output == []
        invariant eof ==> sectSize == 0 || Left() == 0
        invariant !failed
        decreases !eof, nSectors - sector
      {
        PartOfAll(input, first, sector, nSectors, sectSize);
        ok := ReadSector();
        if !ok {
          return;
        }
        if !eof {
          PartOfAll(input, first, sector + 1, nSectors, sectSize);
          OneMore(input, first, sector, sectSize, nbytes);
          ok := WriteSector();
          if !ok {
            return;
          }
          sector := sector + 1;
        }
      }
      if eof {
        NothingLeft(input, first, sector, nSectors, sectSize);
      }
      ok := true;
    }
  }

  lemma StartsAtFirst(input: seq<bv8>, start: nat, count: nat, sectSize: nat)
    ensures var first := Min(start, |input|);
            && Wanted(input, start, count, sectSize) == Wanted(input, first, count, sectSize)
            && Wanted(input, first, 0, sectSize) == []
  {
  }

  lemma MulMonotone(x: nat, y: nat, z: nat)
    requires x <= y
    ensures x * z <= y * z
  {
  }

  lemma PartOfAll(input: seq<bv8>, first: nat, sector: nat, count: nat, sectSize: nat)
    requires first <= |input| && sector <= count
    ensures Wanted(input, first, sector, sectSize) <= Wanted(input, first, count, sectSize)
  {
    MulMonotone(sector, count, sectSize);
  }

  /** One more sector adds the next bytes, a full sector of them or all that are left. */
  lemma OneMore(input: seq<bv8>, first: nat, sector: nat, sectSize: nat, n: nat)
    requires first <= |input|
    requires var at := first + |Wanted(input, first, sector, sectSize)|; n == Min(sectSize, |input| - at)
    ensures var done := Wanted(input, first, sector, sectSize);
            && first + |done| + n <= |input|
            && Wanted(input, first, sector + 1, sectSize) == done + input[first + |done|..first + |done| + n]
  {
    var bytes := sector * sectSize;
    assert (sector + 1) * sectSize == bytes + sectSize;
  }

  lemma NothingLeft(input: seq<bv8>, first: nat, sector: nat, count: nat, sectSize: nat)
    requires first <= |input| && sector <= count
    requires sectSize == 0 || first + |Wanted(input, first, sector, sectSize)| == |input|
    ensures Wanted(input, first, sector, sectSize) == Wanted(input, first, count, sectSize)
  {
    MulMonotone(sector, count, sectSize);
  }
}
