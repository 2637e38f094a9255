/** The two byte ring buffers the decode loop works between: the stream buffer it
    reads from and the output buffer it writes to. Their implementation is not part
    of this model; they are specified by the cursor arithmetic the decode loop relies
    on: unread bytes, free bytes (always one short of the room left, so a full
    buffer never looks empty), the contiguous spans up to the wrap point, and cursor
    advances that wrap at the capacity. */
module RingBuffers {

  newtype byte = b: int | 0 <= b < 256

  /** x mod n for 0 <= x < 2n, the only case a cursor advance produces. */
  lemma WrapMod(x: nat, n: nat)
    requires 0 < n && x < 2 * n
    ensures x % n == if x < n then x else x - n
  {
    if x >= n {
      assert x == 1 * n + (x - n);
    }
  }

  /** The cursor geometry of a ring buffer of `size` bytes. */
  datatype Cursors = Cursors(size: nat, readp: nat, writep: nat) {

    predicate Valid() {
      readp < size && writep < size
    }

    /** Bytes written and not yet read: (writep - readp) mod size. */
    function Used(): (r: nat)
      requires Valid()
      ensures r < size
      ensures readp + r == writep || readp + r == writep + size
    {
      if writep >= readp then writep - readp else size - (readp - writep)
    }

    /** Bytes that may be written: one less than the room left. */
    function Space(): nat
      requires Valid()
    {
      size - Used() - 1
    }

    /** Longest run of unread bytes that starts at readp without crossing the wrap point. */
    function ContRead(): (r: nat)
      requires Valid()
      ensures r <= Used() && readp + r <= size
      ensures r == Used() || readp + r == size
      ensures r == 0 <==> Used() == 0
    {
      if writep >= readp then writep - readp else size - readp
    }

    /** Longest run of writable bytes that starts at writep without crossing the wrap
        point; it may exceed Space() by one, which is why writers also bound by Space(). */
    function ContWrite(): (r: nat)
      requires Valid()
      ensures 0 < r <= Space() + 1 && writep + r <= size
      ensures r == Space() + 1 || writep + r == size
    {
      if writep >= readp then size - writep else readp - writep
    }

    /** The read cursor moved past `n` unread bytes. */
    function AdvanceRead(n: nat): (c: Cursors)
      requires Valid() && n <= Used()
      ensures c.Valid() && c.size == size && c.writep == writep
      ensures c.readp == readp + n || c.readp == readp + n - size
      ensures c.Used() == Used() - n
    {
      Cursors(size, if readp + n < size then readp + n else readp + n - size, writep)
    }

    /** The write cursor moved past `n` freshly written bytes; as long as `n` fits the
        free space, the write cursor does not land on the read cursor. */
    function AdvanceWrite(n: nat): (c: Cursors)
      requires Valid() && n <= Space()
      ensures c.Valid() && c.size == size && c.readp == readp
      ensures c.writep == writep + n || c.writep == writep + n - size
      ensures c.Used() == Used() + n && c.Space() == Space() - n
      ensures n > 0 ==> c.writep != c.readp
    {
      Cursors(size, readp, if writep + n < size then writep + n else writep + n - size)
    }
  }

  /** The unread count is the distance from the read cursor to the write cursor,
      modulo the capacity, and consuming bytes adds to the read cursor modulo the
      capacity. */
  lemma ReadIsModular(c: Cursors, n: nat)
    requires c.Valid() && n <= c.Used()
    ensures (c.readp + c.Used()) % c.size == c.writep
    ensures c.AdvanceRead(n).readp == (c.readp + n) % c.size
  {
    WrapMod(c.readp + c.Used(), c.size);
    WrapMod(c.readp + n, c.size);
  }

  /** Publishing bytes adds to the write cursor modulo the capacity. */
  lemma WriteIsModular(c: Cursors, n: nat)
    requires c.Valid() && n <= c.Space()
    ensures c.AdvanceWrite(n).writep == (c.writep + n) % c.size
  {
    WrapMod(c.writep + n, c.size);
  }

  /** The `n` bytes that follow physical position `p` in storage `d`, wrapping at its end. */
  function LogicalBytes(d: seq<byte>, p: nat, n: nat): seq<byte>
    requires p < |d|
  {
    seq(n, k requires 0 <= k < n => d[(p + k) % |d|])
  }

  /** Bytes at [p, p + n) of the storage read without wrapping are the logical bytes at p. */
  lemma {:induction false} ContiguousIsLogical(d: seq<byte>, p: nat, n: nat)
    requires p < |d| && p + n <= |d|
    ensures d[p..p + n] == LogicalBytes(d, p, n)
  {
    forall k | 0 <= k < n
      ensures d[p..p + n][k] == LogicalBytes(d, p, n)[k]
    {
      WrapMod(p + k, |d|);
    }
  }

  /** Consuming `n` bytes leaves exactly the unread bytes after the first `n`. */
  lemma {:induction false} AdvanceReadDropsPrefix(d: seq<byte>, i: Cursors, n: nat)
    requires i.Valid() && |d| == i.size && n <= i.Used()
    ensures LogicalBytes(d, i.AdvanceRead(n).readp, i.AdvanceRead(n).Used())
            == LogicalBytes(d, i.readp, i.Used())[n..]
  {
    var c := i.AdvanceRead(n);
    WrapMod(i.readp + n, |d|);
    forall k | 0 <= k < i.Used() - n
      ensures LogicalBytes(d, c.readp, c.Used())[k] == LogicalBytes(d, i.readp, i.Used())[n + k]
    {
      WrapMod(c.readp + k, |d|);
      WrapMod(i.readp + (n + k), |d|);
    }
  }

  /** Writing `w` at the write cursor and publishing it appends `w` to the unread bytes. */
  lemma {:induction false} AdvanceWriteAppends(d: seq<byte>, o: Cursors, w: seq<byte>)
    requires o.Valid() && |d| == o.size && |w| <= o.Space() && o.writep + |w| <= o.size
    ensures LogicalBytes(d[..o.writep] + w + d[o.writep + |w|..], o.AdvanceWrite(|w|).readp, o.AdvanceWrite(|w|).Used())
            == LogicalBytes(d, o.readp, o.Used()) + w
  {
    var d' := d[..o.writep] + w + d[o.writep + |w|..];
    var c := o.AdvanceWrite(|w|);
    WrapMod(o.readp + o.Used(), |d|);
    forall k | 0 <= k < c.Used()
      ensures LogicalBytes(d', c.readp, c.Used())[k] == (LogicalBytes(d, o.readp, o.Used()) + w)[k]
    {
      WrapMod(o.readp + k, |d|);
    }
  }

  /** A ring buffer: fixed storage and two cursors that the decode loop advances. */
  class RingBuffer {
    const data: array<byte>
    var readp: nat
    var writep: nat

    function Pos(): Cursors
      reads this
    {
      Cursors(data.Length, readp, writep)
    }

    predicate Valid()
      reads this
    {
      Pos().Valid()
    }

    /** _buf_inc_readp: consume `n` bytes. */
    method IncReadp(n: nat)
      requires Valid() && n <= Pos().Used()
      modifies this`readp
      ensures Pos() == old(Pos()).AdvanceRead(n)
    {
      readp := readp + n;
      if readp >= data.Length {
        readp := readp - data.Length;
      }
    }

    /** _buf_inc_writep: publish `n` bytes written at the old write cursor. */
    method IncWritep(n: nat)
      requires Valid() && n <= Pos().Space()
      modifies this`writep
      ensures Pos() == old(Pos()).AdvanceWrite(n)
    {
      writep := writep + n;
      if writep >= data.Length {
        writep := writep - data.Length;
      }
    }
  }
}
