/**
 The ring buffer of hev-ring-buffer.c: octets are read into it, handed out without copying, and released when the
 peer has acknowledged them. It refines a bounded queue in two parts - handed out and not released, and not yet
 handed out.
 */
module RingBuffer {
  import opened Bytes

  /** A stretch of the buffer, as in struct iovec. */
  datatype Stretch = Stretch(base: nat, len: nat)

  /** A position that may have run past the end once. */
  function Wrap(x: nat, n: nat): nat { if x < n then x else x - n }

  lemma ModIsWrap(x: nat, n: nat)
    requires x < 2 * n
    ensures x % n == Wrap(x, n)
  {
    if x >= n {
      assert x == n + (x - n);
      assert (x - n) % n == x - n;
      assert x % n == (x - n) % n;
    }
  }

  /** Cells at different distances below `n` are different. */
  lemma WrapApart(start: nat, j: nat, k: nat, n: nat)
    requires start < n && j < n && k < n && j != k
    ensures Wrap(start + j, n) != Wrap(start + k, n)
  {
  }

  function Total(iov: seq<Stretch>): nat {
    if iov == [] then 0 else if |iov| == 1 then iov[0].len else iov[0].len + iov[1].len
  }

  /** The cell of octet `k` of one or two stretches. */
  function CellOf(iov: seq<Stretch>, k: nat): nat
    requires k < Total(iov)
  {
    if k < iov[0].len then iov[0].base + k else iov[1].base + k - iov[0].len
  }

  predicate InRange(iov: seq<Stretch>, n: nat) { forall i :: 0 <= i < |iov| ==> iov[i].base + iov[i].len <= n }

  /** The octets of the stretches. */
  ghost function Gather(d: Octets, iov: seq<Stretch>): Octets
    requires InRange(iov, |d|) && |iov| <= 2
  {
    if iov == [] then []
    else if |iov| == 1 then d[iov[0].base..iov[0].base + iov[0].len]
    else d[iov[0].base..iov[0].base + iov[0].len] + d[iov[1].base..iov[1].base + iov[1].len]
  }

  lemma Gathered(d: Octets, iov: seq<Stretch>, readable: Octets)
    requires InRange(iov, |d|) && |iov| <= 2 && Total(iov) == |readable|
    requires forall k :: 0 <= k < Total(iov) ==> CellOf(iov, k) < |d| && d[CellOf(iov, k)] == readable[k]
    ensures Gather(d, iov) == readable
  {
    var g := Gather(d, iov);
    forall k | 0 <= k < |readable| ensures g[k] == readable[k] {
      assert g[k] == d[CellOf(iov, k)];
    }
  }

  lemma MoveOn(s: Octets, k: nat, n: nat)
    requires k + n <= |s|
    ensures s[..k + n] == s[..k] + s[k..][..n] && s[k + n..] == s[k..][n..]
  {
  }

  class RingBuffer {
    const maxSize: nat
    var data: array<byte>
    var rp: nat
    var wp: nat
    var rdaSize: nat
    var useSize: nat
    ghost var start: nat

    ghost predicate Valid()
      reads this
    {
      && data.Length == maxSize > 0 && start < maxSize
      && rdaSize <= useSize <= maxSize
      && rp == Wrap(start + useSize - rdaSize, maxSize) && wp == Wrap(start + useSize, maxSize)
    }

    constructor (size: nat)
      requires size > 0
      ensures Valid() && fresh(data) && maxSize == size && Handed() == [] && Readable() == []
    {
      maxSize := size;
      data := new byte[size];
      rp, wp, rdaSize, useSize, start := 0, 0, 0, 0, 0;
    }

    ghost function Cell(k: nat): nat
      reads this`start
    {
      Wrap(start + k, maxSize)
    }

    /** The cell holds an octet that has not been released. */
    ghost predicate InUse(cell: nat)
      reads this`start, this`useSize
    {
      exists k :: 0 <= k < useSize && Cell(k) == cell
    }

    /** Everything that has not been released, oldest first. */
    ghost function Cells(): (s: seq<byte>)
      requires Valid()
      reads this, data
      ensures |s| == useSize && forall k :: 0 <= k < useSize ==> s[k] == data[Wrap(start + k, maxSize)]
    {
      seq(useSize, k requires 0 <= k < useSize && Valid() reads this, data => data[Wrap(start + k, maxSize)])
    }

    /** Handed out and not released. */
    ghost function Handed(): Octets
      requires Valid()
      reads this, data
    {
      Cells()[..useSize - rdaSize]
    }

    /** Not yet handed out. */
    ghost function Readable(): Octets
      requires Valid()
      reads this, data
    {
      Cells()[useSize - rdaSize..]
    }

    /** The free cells, in the order in which they are to be filled; none of them holds an octet that has been handed
        out and not released. */
    method Writing() returns (iov: seq<Stretch>)
      requires Valid()
      ensures |iov| <= 2 && Total(iov) == maxSize - useSize && (iov == [] <==> useSize == maxSize)
      ensures forall k :: 0 <= k < Total(iov) ==>
        CellOf(iov, k) == Wrap(start + useSize + k, maxSize)
        && !InUse(CellOf(iov, k))
    {
      FreeCells();
      if useSize == maxSize {
        return [];
      }
      var upper := maxSize - wp;
      var space := maxSize - useSize;
      if space <= upper {
        iov := [Stretch(wp, space)];
      } else {
        iov := [Stretch(wp, upper), Stretch(0, space - upper)];
      }
      assert forall k :: 0 <= k < Total(iov) ==> CellOf(iov, k) == Cell(useSize + k);
    }

    lemma FreeCells()
      requires Valid()
      ensures forall k :: useSize <= k < maxSize ==> !InUse(Cell(k))
    {
      forall k | useSize <= k < maxSize ensures !InUse(Cell(k)) {
        forall j | 0 <= j < useSize ensures Cell(j) != Cell(k) {
          WrapApart(start, j, k, maxSize);
        }
      }
    }

    /** The cells to be handed out, oldest first. */
    method Reading() returns (iov: seq<Stretch>)
      requires Valid()
      ensures |iov| <= 2 && Total(iov) == rdaSize && (iov == [] <==> rdaSize == 0)
      ensures InRange(iov, data.Length) && Gather(data[..], iov) == Readable()
    {
      if rdaSize == 0 {
        return [];
      }
      var upper := maxSize - rp;
      if rdaSize <= upper {
        iov := [Stretch(rp, rdaSize)];
      } else {
        iov := [Stretch(rp, upper), Stretch(0, rdaSize - upper)];
      }
      Gathered(data[..], iov, Readable());
    }

    method ReadFinish(size: nat)
      requires Valid() && size <= rdaSize
      modifies this`rp, this`rdaSize
      ensures Valid() && useSize == old(useSize)
      ensures Handed() == old(Handed()) + old(Readable())[..size] && Readable() == old(Readable())[size..]
    {
      hide RingBuffer.Cells;
      ModIsWrap(rp + size, maxSize);
      ghost var cells, k := Cells(), useSize - rdaSize;
      MoveOn(cells, k, size);
      rp := (rp + size) % maxSize;
      rdaSize := rdaSize - size;
      assert Cells() == cells;
    }

    /** Forget the oldest `size` octets; a buffer that becomes empty starts again at its beginning. */
    method ReadRelease(size: nat)
      requires Valid() && size <= useSize - rdaSize
      modifies this`useSize, this`rp, this`wp, this`start
      ensures Valid() && Handed() == old(Handed())[size..] && Readable() == old(Readable())
    {
      ghost var cells := Cells();
      useSize := useSize - size;
      start := Wrap(start + size, maxSize);
      if useSize == 0 {
        rp, wp := 0, 0;
        start := 0;
      }
      assert Cells() == cells[size..];
    }

    method WriteFinish(size: nat)
      requires Valid() && size <= maxSize - useSize
      modifies this`wp, this`useSize, this`rdaSize
      ensures Valid() && useSize == old(useSize) + size && rdaSize == old(rdaSize) + size && start == old(start)
    {
      ModIsWrap(wp + size, maxSize);
      wp := (wp + size) % maxSize;
      useSize := useSize + size;
      rdaSize := rdaSize + size;
    }

    /** What readv does with the free stretches; nothing that is in use is touched. */
    method Fill(iov: seq<Stretch>, bytes: Octets)
      requires Valid() && |iov| <= 2 && |bytes| <= Total(iov) <= maxSize - useSize
      requires forall k :: 0 <= k < Total(iov) ==> CellOf(iov, k) == Wrap(start + useSize + k, maxSize)
      modifies data
      ensures Cells() == old(Cells())
      ensures forall k :: 0 <= k < |bytes| ==> data[Wrap(start + useSize + k, maxSize)] == bytes[k]
    {
      hide RingBuffer.Cells;
      for i := 0 to |bytes|
        invariant Cells() == old(Cells())
        invariant forall k :: 0 <= k < i ==> data[Wrap(start + useSize + k, maxSize)] == bytes[k]
      {
        ghost var cells := Cells();
        data[CellOf(iov, i)] := bytes[i];
        forall k | 0 <= k < useSize ensures Cells()[k] == cells[k] {
          WrapApart(start, k, useSize + i, maxSize);
        }
        assert Cells() == cells;
        forall k | 0 <= k < i ensures data[Wrap(start + useSize + k, maxSize)] == bytes[k] {
          WrapApart(start, useSize + k, useSize + i, maxSize);
        }
      }
    }

    /** Read `bytes` into the free stretches and account for them. */
    method Receive(iov: seq<Stretch>, bytes: Octets)
      requires Valid() && |iov| <= 2 && |bytes| <= Total(iov) <= maxSize - useSize
      requires forall k :: 0 <= k < Total(iov) ==> CellOf(iov, k) == Wrap(start + useSize + k, maxSize)
      modifies this`wp, this`useSize, this`rdaSize, data
      ensures Valid() && Handed() == old(Handed()) && Readable() == old(Readable()) + bytes
    {
      Fill(iov, bytes);
      WriteFinish(|bytes|);
      assert Cells() == old(Cells()) + bytes;
    }
  }
}
