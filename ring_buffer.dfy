/**
 * The fixed-capacity circular byte buffer of include/rdma_messenger/Buffer.h.
 *
 * `readable` is where the next read starts, `writeable` where the next write
 * starts, and `newRound` records that the writer has wrapped past the end of
 * the array while the reader has not yet followed.  With `newRound` false the
 * stored bytes are buf[readable..writeable]; with it true they are
 * buf[readable..] followed by buf[..writeable].  Equal cursors therefore mean
 * "empty" without a pending wrap and "full" with one.
 */
module RingBuffer {
  import opened Wrappers

  type Byte = bv8

  /** Capacity of a default-constructed Buffer: 4 MiB. */
  const DEFAULT_BUF_LEN: nat := 4 * 1024 * 1024

  /** memcpy(dst + at, src, |src|). */
  method MemCopy(dst: array<Byte>, at: nat, src: seq<Byte>)
    requires at + |src| <= dst.Length
    modifies dst
    ensures forall i :: 0 <= i < dst.Length ==>
              dst[i] == if at <= i < at + |src| then src[i - at] else old(dst[i])
  {
    forall i | at <= i < at + |src| {
      dst[i] := src[i - at];
    }
  }

  class Buffer {
    const maxLen: nat
    const buf: array<Byte>
    var newRound: bool
    var readable: nat
    var writeable: nat
    /** The bytes written and not yet read, oldest first. */
    ghost var contents: seq<Byte>

    /** Where the i-th stored byte lives: i bytes past the read cursor, wrapping. */
    function Slot(i: nat): nat
      reads this
    {
      if readable + i < maxLen then readable + i else readable + i - maxLen
    }

    /**
     * The state invariant every public call preserves: the cursors lie in
     * the array in the order `newRound` says, and the stored bytes are the
     * ones between them, going round the end when a round is pending.
     */
    ghost predicate Valid()
      reads this, buf
    {
      buf.Length == maxLen && 0 < maxLen < UINT32_LIMIT &&
      readable < maxLen && writeable < maxLen &&
      (if newRound then writeable <= readable else readable <= writeable) &&
      |contents| == (if newRound then maxLen - readable + writeable else writeable - readable) &&
      forall i :: 0 <= i < |contents| ==> Slot(i) < maxLen && contents[i] == buf[Slot(i)]
    }

    /**
     * How many bytes are stored, computed from the cursors alone; equal
     * cursors mean empty without a pending wrap and full with one.
     */
    ghost function Stored(): (n: nat)
      reads this, buf
      requires Valid()
      ensures n == |contents| && n <= maxLen
      ensures n == 0 <==> !newRound && readable == writeable
      ensures n == maxLen <==> newRound && readable == writeable
    {
      if newRound then maxLen - readable + writeable else writeable - readable
    }

    /**
     * The read cursor and the stored count determine the rest of the state:
     * the write cursor sits `Stored()` bytes past the read cursor, modulo the
     * capacity, and a round is pending exactly when that passes the end.
     */
    lemma CursorsFromStored()
      requires Valid()
      ensures newRound <==> readable + Stored() >= maxLen
      ensures writeable == if newRound then readable + Stored() - maxLen else readable + Stored()
    {
    }

    constructor (bufLen: nat)
      requires 0 < bufLen < UINT32_LIMIT
      ensures Valid() && fresh(buf)
      ensures maxLen == bufLen && contents == []
      ensures !newRound && readable == 0 && writeable == 0
    {
      maxLen := bufLen;
      buf := new Byte[bufLen];
      newRound, readable, writeable := false, 0, 0;
      contents := [];
    }

    /**
     * One memcpy segment of write_buf: copies `chunk` into the free gap at the
     * write cursor, advances the cursor, and wraps it to 0 (starting a new
     * round) when it reaches the end of the array.
     */
    method PutSegment(chunk: seq<Byte>)
      requires Valid()
      requires |chunk| <= (if newRound then readable - writeable else maxLen - writeable)
      modifies this`writeable, this`newRound, this`contents, buf
      ensures Valid()
      ensures contents == old(contents) + chunk
      ensures !old(newRound) && old(writeable) + |chunk| == maxLen ==> writeable == 0 && newRound
      ensures !(!old(newRound) && old(writeable) + |chunk| == maxLen) ==>
                writeable == old(writeable) + |chunk| && newRound == old(newRound)
    {
      MemCopy(buf, writeable, chunk);
      writeable := writeable + |chunk|;
      if !newRound && writeable == maxLen {
        writeable := 0;
        newRound := true;
      }
      contents := contents + chunk;
    }

    /**
     * write_buf: copies as much of `rawMsg` as fits, in at most two segments
     * (up to the end of the array, then from its start up to `readable`), and
     * returns how many bytes it accepted.
     */
    method WriteBuf(rawMsg: seq<Byte>) returns (n: nat, ghost segments: nat)
      requires Valid()
      requires |rawMsg| < UINT32_LIMIT
      modifies this`writeable, this`newRound, this`contents, buf
      ensures Valid()
      ensures n == Min(|rawMsg|, maxLen - old(Stored()))
      ensures contents == old(contents) + rawMsg[..n]
      ensures n == 0 ==> writeable == old(writeable) && newRound == old(newRound)
      ensures 1 <= segments <= 2
    {
      ghost var orig, writeable0, newRound0 := contents, writeable, newRound;
      var waitLen: nat := |rawMsg|;
      var copyStart: nat := 0;
      segments := 0;
      while true
        invariant Valid()
        invariant waitLen <= |rawMsg| && copyStart == |rawMsg| - waitLen
        invariant contents == orig + rawMsg[..copyStart]
        invariant copyStart <= maxLen - |orig|
        invariant segments == 0 ==> copyStart == 0 && writeable == writeable0 && newRound == newRound0
        invariant segments == 1 ==> newRound && writeable == 0 && copyStart > 0
        invariant segments <= 1
        decreases waitLen
      {
        var wroteLen := if newRound then readable - writeable else maxLen - writeable;
        wroteLen := if wroteLen >= waitLen then waitLen else wroteLen;
        PutSegment(rawMsg[copyStart..copyStart + wroteLen]);
        AppendSlices(orig, rawMsg, copyStart, copyStart + wroteLen);
        waitLen := waitLen - wroteLen;
        copyStart := copyStart + wroteLen;
        segments := segments + 1;

        if writeable == readable || waitLen == 0 {
          n := |rawMsg| - waitLen;
          return;
        }
      }
    }

    /**
     * One memcpy segment of read_buf: copies the `k` bytes at the read cursor
     * to `dest[at..]`, advances the cursor, and wraps it to 0 (ending the
     * round) when it reaches the end of the array.
     */
    method TakeSegment(dest: array<Byte>, at: nat, k: nat)
      requires Valid() && dest != buf && at + k <= dest.Length
      requires k <= (if newRound then maxLen - readable else writeable - readable)
      modifies this`readable, this`newRound, this`contents, dest
      ensures Valid()
      ensures k <= |old(contents)|
      ensures forall i :: 0 <= i < dest.Length ==>
                dest[i] == if at <= i < at + k then old(contents)[i - at] else old(dest[i])
      ensures contents == old(contents)[k..]
      ensures old(newRound) && old(readable) + k == maxLen ==> readable == 0 && !newRound
      ensures !(old(newRound) && old(readable) + k == maxLen) ==>
                readable == old(readable) + k && newRound == old(newRound)
    {
      MemCopy(dest, at, buf[readable..readable + k]);
      readable := readable + k;
      if newRound && readable == maxLen {
        readable := 0;
        newRound := false;
      }
      contents := contents[k..];
    }

    /**
     * read_buf: copies up to `rawMsgSize` of the oldest stored bytes into
     * `rawMsg`, in at most two segments, and returns how many it delivered.
     */
    method ReadBuf(rawMsg: array<Byte>, rawMsgSize: nat) returns (n: nat, ghost segments: nat)
      requires Valid()
      requires rawMsgSize <= rawMsg.Length && rawMsgSize < UINT32_LIMIT
      requires rawMsg != buf
      modifies this`readable, this`newRound, this`contents, rawMsg
      ensures Valid()
      ensures n == Min(rawMsgSize, old(Stored()))
      ensures forall i :: 0 <= i < rawMsg.Length ==>
                rawMsg[i] == if i < n then old(contents)[i] else old(rawMsg[i])
      ensures contents == old(contents)[n..]
      ensures n == 0 ==> readable == old(readable) && newRound == old(newRound)
      ensures 1 <= segments <= 2
    {
      ghost var orig, readable0, newRound0 := contents, readable, newRound;
      var waitLen: nat := rawMsgSize;
      var copyStart: nat := 0;
      segments := 0;
      while true
        invariant Valid()
        invariant waitLen <= rawMsgSize && copyStart == rawMsgSize - waitLen
        invariant copyStart <= |orig|
        invariant contents == orig[copyStart..]
        invariant forall i :: 0 <= i < rawMsg.Length ==>
                    rawMsg[i] == if i < copyStart then orig[i] else old(rawMsg[i])
        invariant segments == 0 ==> copyStart == 0 && readable == readable0 && newRound == newRound0
        invariant segments == 1 ==> !newRound && readable == 0 && copyStart > 0
        invariant segments <= 1
        decreases waitLen
      {
        var readLen := if newRound then maxLen - readable else writeable - readable;
        readLen := if readLen >= waitLen then waitLen else readLen;
        TakeSegment(rawMsg, copyStart, readLen);
        DropSlices(orig, copyStart, readLen);
        waitLen := waitLen - readLen;
        copyStart := copyStart + readLen;
        segments := segments + 1;

        if writeable == readable || waitLen == 0 {
          n := rawMsgSize - waitLen;
          return;
        }
      }
    }
  }

  /** Appending the next slice of `msg` extends the copied prefix. */
  lemma AppendSlices(orig: seq<Byte>, msg: seq<Byte>, i: nat, j: nat)
    requires i <= j <= |msg|
    ensures (orig + msg[..i]) + msg[i..j] == orig + msg[..j]
  {
    assert msg[..j] == msg[..i] + msg[i..j];
  }

  /** Dropping `k` more bytes from a suffix of `s`. */
  lemma DropSlices(s: seq<Byte>, i: nat, k: nat)
    requires i + k <= |s|
    ensures s[i..][k..] == s[i + k..]
  {
  }

  /**
   * FIFO round trip: bytes written into a fresh default-size Buffer are read
   * back unchanged and in order.
   */
  method WriteThenRead(msg: seq<Byte>) returns (out: seq<Byte>)
    requires |msg| <= DEFAULT_BUF_LEN
    ensures out == msg
  {
    var b := new Buffer(DEFAULT_BUF_LEN);
    var wrote, _ := b.WriteBuf(msg);
    var dest := new Byte[|msg|];
    var got, _ := b.ReadBuf(dest, |msg|);
    out := dest[..];
    assert forall i :: 0 <= i < |msg| ==> out[i] == msg[i];
  }
}
