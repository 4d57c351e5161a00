/** A packet buffer: a window on a block of bytes, with room in front for headers and behind for tags. */
module Transmission {
  import opened Basics

  const DEFAULT_BUF_SIZE: nat := 2048

  /** How a call ended: done, refused with an error, or stopped by an out-of-range slice. */
  datatype Io = Done | Refused | Panicked

  /** A block grown or cut to a length, new bytes set to `value`. */
  function Resized(buf: seq<byte>, len: nat, value: byte): (r: seq<byte>)
    ensures |r| == len
  {
    if len <= |buf| then buf[..len] else buf + seq(len - |buf|, _ => value)
  }

  /** Splicing bytes into a block splices them into a window that holds their place. */
  lemma SpliceWindow(buf: seq<byte>, start: nat, end: nat, at: nat, data: seq<byte>)
    requires start <= end <= |buf| && start + at + |data| <= end
    ensures var i, before := start + at, buf[start..end];
      && (buf[..i] + data + buf[i + |data|..])[start..end] == before[..at] + data + before[at + |data|..]
      && (buf[..i] + data + buf[i + |data|..])[..start] == buf[..start]
  {
    var i, before := start + at, buf[start..end];
    var l, r := (buf[..i] + data + buf[i + |data|..])[start..end], before[..at] + data + before[at + |data|..];
    assert |l| == |r|;
    forall j | 0 <= j < |l| ensures l[j] == r[j] {
      if j < at {
        assert l[j] == buf[start + j] == before[j];
      } else if j >= at + |data| {
        assert l[j] == buf[start + j] == before[j];
      }
    }
  }

  class TransmissionBytes {
    var buf: seq<byte>
    var start: nat
    var end: nat
    /** What the allocator set aside for the block: at least its length. */
    var capacity: nat

    predicate Valid()
      reads this
    {
      start <= end <= |buf| <= capacity
    }

    function Contents(): (s: seq<byte>)
      requires Valid()
      reads this
      ensures |s| == end - start
    {
      buf[start..end]
    }

    constructor From(bytes: seq<byte>, spare: nat)
      ensures Valid() && Contents() == bytes && start == 0 && capacity == |bytes| + spare
    {
      buf, start, end, capacity := bytes, 0, |bytes|, |bytes| + spare;
    }

    /** An empty window with head room; it lies in the block exactly when the head room does. */
    constructor NewOffset(room: nat, spare: nat)
      ensures Valid() <==> room <= DEFAULT_BUF_SIZE
      ensures Valid() ==> Contents() == [] && start == room
      ensures buf == Zeros(DEFAULT_BUF_SIZE) && capacity == |buf| + spare
    {
      buf, start, end, capacity := Zeros(DEFAULT_BUF_SIZE), room, room, DEFAULT_BUF_SIZE + spare;
    }

    /** A window on all of a zeroed block behind the head room. */
    constructor NewOffsetZeroed(room: nat, spare: nat)
      ensures Valid() <==> room <= DEFAULT_BUF_SIZE
      ensures Valid() ==> Contents() == Zeros(DEFAULT_BUF_SIZE - room) && start == room
      ensures buf == Zeros(DEFAULT_BUF_SIZE) && capacity == |buf| + spare
    {
      buf, start, end, capacity := Zeros(DEFAULT_BUF_SIZE), room, DEFAULT_BUF_SIZE, DEFAULT_BUF_SIZE + spare;
    }

    constructor ZeroedSize(size: nat, reserve: nat, spare: nat)
      ensures Valid() && Contents() == Zeros(size) && start == 0 && |buf| == size + reserve
    {
      buf, start, end, capacity := Zeros(size + reserve), 0, size, size + reserve + spare;
    }

    /** Appends. The room check counts the capacity, the copy only the block: a need between the two
        panics. */
    method Put(data: seq<byte>) returns (r: Io)
      requires Valid()
      modifies this
      ensures Valid()
      ensures r.Refused? <==> |data| > old(capacity - end)
      ensures r.Done? <==> |data| <= old(|buf| - end)
      ensures old(capacity == |buf|) ==> !r.Panicked?
      ensures r.Done? ==> buf[..start] == old(buf[..start])
      ensures start == old(start)
      ensures Contents() == if r.Done? then old(Contents()) + data else old(Contents())
    {
      if |data| > capacity - end {
        return Refused;
      }
      if end + |data| > |buf| {
        return Panicked;
      }
      buf := buf[..end] + data + buf[end + |data|..];
      end := end + |data|;
      r := Done;
    }

    /** Opens the window to the front: the bytes of the head room come into view as they are. */
    method RetreatHead(len: nat) returns (r: Io)
      requires Valid()
      modifies this`start
      ensures Valid() && r == (if len <= old(start) then Done else Refused)
      ensures r.Done? ==> start == old(start) - len && Contents() == old(buf[start - len..start]) + old(Contents())
      ensures r.Refused? ==> start == old(start)
    {
      if len > start {
        return Refused;
      }
      start := start - len;
      r := Done;
    }

    method AdvanceHead(len: nat) returns (r: Io)
      requires Valid()
      modifies this`start
      ensures Valid() && r == (if len <= |old(Contents())| then Done else Refused)
      ensures r.Done? ==> start == old(start) + len && Contents() == old(Contents())[len..]
      ensures r.Refused? ==> start == old(start)
    {
      if len > end - start {
        return Refused;
      }
      start := start + len;
      r := Done;
    }

    /** Sets the length within the capacity; a length past the block leaves the window out of range. */
    method SetLen(len: nat) returns (r: Io)
      requires Valid()
      modifies this`end
      ensures r == if start + len > capacity then Refused else Done
      ensures Valid() <==> r.Refused? || start + len <= |buf|
      ensures capacity == |buf| ==> Valid()
      ensures r.Refused? ==> end == old(end)
      ensures r.Done? ==> end == start + len
    {
      if start + len > capacity {
        return Refused;
      }
      end := start + len;
      r := Done;
    }

    method Resize(len: nat, value: byte)
      requires Valid()
      modifies this
      ensures Valid() && start == old(start) && buf == Resized(old(buf), start + len, value)
      ensures |Contents()| == len
      ensures len <= |old(Contents())| ==> Contents() == old(Contents())[..len]
      ensures len > |old(Contents())| ==> old(Contents()) <= Contents()
      ensures forall j :: |old(Contents())| <= j < len ==>
        Contents()[j] == if start + j < |old(buf)| then old(buf)[start + j] else value
    {
      buf := Resized(buf, start + len, value);
      end := start + len;
      capacity := Max(capacity, end);
    }

    /** Opens the window to the back, growing the block when it must. */
    method ExtendEnd(n: nat)
      requires Valid()
      modifies this
      ensures Valid() && start == old(start) && end == old(end) + n
      ensures old(buf) <= buf && old(Contents()) == Contents()[..|old(Contents())|]
      ensures forall j :: |old(Contents())| <= j < |Contents()| ==>
        Contents()[j] == if start + j < |old(buf)| then old(buf)[start + j] else 0
    {
      if end + n > |buf| {
        buf := Resized(buf, end + n, 0);
        capacity := Max(capacity, |buf|);
      }
      assert old(buf) == buf[..|old(buf)|];
      end := end + n;
      assert Contents()[..|old(Contents())|] == buf[start..old(end)] == old(Contents());
    }

    /** Drops bytes from the back, at most all of them. */
    method ShrinkEnd(n: nat)
      requires Valid()
      modifies this`end
      ensures Valid()
      ensures Contents() == old(Contents())[..if n >= |old(Contents())| then 0 else |old(Contents())| - n]
    {
      ghost var before := Contents();
      if n >= end - start {
        end := start;
        assert Contents() == before[..0];
      } else {
        end := end - n;
        assert Contents() == before[..|before| - n];
      }
    }

    /** Overwrites bytes of the window in place. */
    method Write(at: nat, data: seq<byte>)
      requires Valid() && at + |data| <= |Contents()|
      modifies this`buf
      ensures Valid() && |buf| == old(|buf|)
      ensures Contents() == old(Contents())[..at] + data + old(Contents())[at + |data|..]
      ensures buf[..start] == old(buf[..start])
    {
      var i := start + at;
      SpliceWindow(buf, start, end, at, data);
      buf := buf[..i] + data + buf[i + |data|..];
    }

    /** The window as a block of its own. */
    method IntoBytes() returns (bytes: seq<byte>)
      requires Valid()
      ensures bytes == Contents()
    {
      bytes := buf[..end];
      if start > 0 {
        bytes := bytes[start..];
      }
    }
  }
}
