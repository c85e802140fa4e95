/** The buffered input stream: it delivers what the descriptor holds, in order,
    and knows its position, however few bytes arrive at a time. */
module FdInStreams {
  import opened Arithmetic
  import opened Bytes

  datatype Outcome = Done(n: nat) | NothingYet | ItemTooLarge | TimedOut | EndOfStream

  const MIN_BULK_SIZE := 1024

  class FdInStream {
    const bufSize: nat
    const buffer: array<Byte>
    var ptr: nat
    var end: nat
    var offset: nat
    var timing: bool
    var fd: seq<Byte>              // what the descriptor has still to deliver
    ghost const source: seq<Byte>  // all it ever delivers
    ghost var stalls: nat          // how often it has delivered nothing in time

    ghost predicate Valid()
      reads this, buffer
    {
      && buffer.Length == bufSize > 0
      && ptr <= end <= bufSize
      && offset + ptr <= |source|
      && Unread() == source[offset + ptr..]
    }

    /** What a reader gets from here on. */
    ghost function Unread(): seq<Byte>
      requires buffer.Length == bufSize && ptr <= end <= bufSize
      reads this, buffer
    {
      buffer[ptr..end] + fd
    }

    constructor (size: nat, fd: seq<Byte>)
      ensures Valid() && source == fd && Pos() == 0 && fresh(buffer)
      ensures bufSize == (if size == 0 then 8192 else size) && stalls == 0
    {
      var n := if size == 0 then 8192 else size;
      bufSize := n;
      buffer := new Byte[n](_ => 0);
      ptr, end, offset := 0, 0, 0;
      timing := false;
      this.fd := fd;
      source := fd;
      stalls := 0;
    }

    function Pos(): nat
      reads this
    {
      offset + ptr
    }

    /** The descriptor delivers at least one byte, or none in time, or is at its end. */
    method ReadWithTimeoutOrCallback(length: nat, wait: bool) returns (outcome: Outcome, bytes: seq<Byte>)
      requires length > 0
      modifies this`fd, this`stalls
      ensures old(fd) == bytes + fd
      ensures outcome.Done? ==> outcome.n == |bytes| && 0 < |bytes| <= length
      ensures !outcome.Done? ==> bytes == []
      ensures outcome.NothingYet? ==> !wait
      ensures outcome.TimedOut? ==> wait
      ensures outcome.EndOfStream? ==> fd == []
      ensures !outcome.ItemTooLarge?
      ensures stalls == old(stalls) + if outcome.TimedOut? || outcome.NothingYet? then 1 else 0
    {
      bytes := [];
      var ready: bool := *;
      if !ready {
        outcome := if wait then TimedOut else NothingYet;
        stalls := stalls + 1;
        return;
      }
      if fd == [] { return EndOfStream, []; }
      var n: nat :| 0 < n <= length && n <= |fd|;
      bytes := fd[..n];
      fd := fd[n..];
      outcome := Done(n);
    }

    /** Move what is left to the start and read until there is an item. */
    method Overrun(itemSize: nat, nItems: nat, wait: bool) returns (outcome: Outcome)
      requires Valid() && itemSize > 0
      modifies this`ptr, this`end, this`offset, this`fd, this`stalls, buffer
      ensures Valid() && Pos() == old(Pos())
      ensures outcome.ItemTooLarge? <==> itemSize > bufSize
      ensures outcome.Done? ==> end - ptr >= itemSize
      ensures outcome.Done? ==> outcome.n == Fitting(itemSize, nItems, end - ptr)
      ensures outcome.NothingYet? ==> !wait
      ensures outcome.EndOfStream? ==> |source| - Pos() < itemSize
      ensures stalls == old(stalls) + if outcome.TimedOut? || outcome.NothingYet? then 1 else 0
    {
      if itemSize > bufSize { return ItemTooLarge; }
      ToStart();
      var wanted := Max(itemSize * nItems, 8);
      while end < itemSize
        invariant Valid() && Pos() == old(Pos()) && ptr == 0 && stalls == old(stalls)
        decreases itemSize - end
      {
        outcome := Fill(wanted, wait);
        if !outcome.Done? { return; }
      }
      outcome := Done(Fitting(itemSize, nItems, end - ptr));
    }

    /** One read into the buffer; when not timing, no more than is wanted. */
    method Fill(wanted: nat, wait: bool) returns (outcome: Outcome)
      requires Valid() && end < bufSize && wanted > 0
      modifies this`end, this`fd, this`stalls, buffer
      ensures Valid() && !outcome.ItemTooLarge?
      ensures outcome.Done? <==> end > old(end)
      ensures outcome.NothingYet? ==> !wait
      ensures outcome.EndOfStream? ==> |source| - Pos() == end - ptr
      ensures stalls == old(stalls) + if outcome.TimedOut? || outcome.NothingYet? then 1 else 0
    {
      var room := bufSize - end;
      if !timing { room := Min(room, wanted); }
      ghost var unread := Unread();
      var bytes;
      outcome, bytes := ReadWithTimeoutOrCallback(room, wait);
      assert buffer[ptr..end] + bytes + fd == unread;
      if outcome.Done? { Append(bytes); }
    }

    method ToStart()
      requires Valid()
      modifies this`ptr, this`end, this`offset, buffer
      ensures Valid() && Pos() == old(Pos()) && ptr == 0
    {
      ghost var left := buffer[ptr..end];
      var n, shift := end - ptr, ptr;
      assert forall k :: 0 <= k < n ==> buffer[shift + k] == left[k];
      for i := 0 to n
        invariant unchanged(this)
        invariant forall k :: 0 <= k < i ==> buffer[k] == left[k]
        invariant forall k :: i <= k < n ==> buffer[shift + k] == left[k]
      {
        buffer[i] := buffer[shift + i];
      }
      offset := offset + ptr;
      end := n;
      ptr := 0;
      assert buffer[..n] == left;
    }

    /** The bytes just read from the descriptor go behind the others. */
    method Append(bytes: seq<Byte>)
      requires buffer.Length == bufSize > 0 && ptr <= end && end + |bytes| <= bufSize
      requires offset + ptr <= |source| && buffer[ptr..end] + bytes + fd == source[offset + ptr..]
      modifies this`end, buffer
      ensures Valid() && end == old(end) + |bytes|
    {
      ghost var before := buffer[ptr..end];
      for i := 0 to |bytes|
        invariant unchanged(this)
        invariant buffer[end..end + i] == bytes[..i]
        invariant buffer[ptr..end] == before
      {
        buffer[end + i] := bytes[i];
      }
      assert buffer[ptr..end + |bytes|] == before + bytes;
      end := end + |bytes|;
    }

    method Check(itemSize: nat, nItems: nat, wait: bool) returns (outcome: Outcome)
      requires Valid() && itemSize > 0 && nItems > 0
      modifies this`ptr, this`end, this`offset, this`fd, this`stalls, buffer
      ensures Valid() && Pos() == old(Pos())
      ensures outcome.ItemTooLarge? ==> itemSize > bufSize
      ensures outcome.Done? ==> end - ptr >= itemSize
      ensures outcome.Done? ==> outcome.n == Fitting(itemSize, nItems, end - ptr)
      ensures outcome.NothingYet? ==> !wait
      ensures outcome.EndOfStream? ==> |source| - Pos() < itemSize
      ensures stalls == old(stalls) + if outcome.TimedOut? || outcome.NothingYet? then 1 else 0
    {
      if ptr + itemSize * nItems > end && ptr + itemSize > end {
        outcome := Overrun(itemSize, nItems, wait);
      } else {
        ItemThere(itemSize, nItems, end - ptr);
        outcome := Done(Fitting(itemSize, nItems, end - ptr));
      }
    }

    /** checkNoWait: a true answer means the bytes are in the buffer. */
    method CheckNoWait(length: nat) returns (there: bool, outcome: Outcome)
      requires Valid() && 0 < length
      modifies this`ptr, this`end, this`offset, this`fd, this`stalls, buffer
      ensures Valid() && Pos() == old(Pos())
      ensures there ==> end - ptr >= length
      ensures there <==> outcome.Done?
      ensures stalls == old(stalls) + if outcome.TimedOut? || outcome.NothingYet? then 1 else 0
    {
      outcome := Check(length, 1, false);
      there := outcome.Done?;
    }

    /** Take bytes that are in the buffer. */
    method Take(n: nat) returns (bytes: seq<Byte>)
      requires Valid() && n <= end - ptr
      modifies this`ptr
      ensures Valid() && Pos() == old(Pos()) + n
      ensures bytes == source[old(Pos())..Pos()]
    {
      assert buffer[ptr..end] == buffer[ptr..ptr + n] + buffer[ptr + n..end];
      bytes := buffer[ptr..ptr + n];
      assert Unread()[..n] == bytes && Unread()[n..] == buffer[ptr + n..end] + fd;
      ptr := ptr + n;
    }

    /** All of the data, or a failure after part of it. */
    method ReadBytes(length: nat) returns (outcome: Outcome, data: seq<Byte>)
      requires Valid()
      modifies this`ptr, this`end, this`offset, this`fd, this`stalls, buffer
      ensures Valid() && old(Pos()) <= Pos() && data == source[old(Pos())..Pos()]
      ensures outcome.Done? ==> |data| == length
      ensures !outcome.Done? ==> |data| < length && (outcome.TimedOut? || outcome.EndOfStream?)
      ensures outcome.EndOfStream? ==> |source| < old(Pos()) + length
      ensures stalls == old(stalls) + if outcome.TimedOut? || outcome.NothingYet? then 1 else 0
    {
      if length < MIN_BULK_SIZE {
        outcome, data := ReadBytesBuffered(length);
      } else {
        outcome, data := ReadBytesBulk(length);
      }
    }

    method ReadBytesBuffered(length: nat) returns (outcome: Outcome, data: seq<Byte>)
      requires Valid()
      modifies this`ptr, this`end, this`offset, this`fd, this`stalls, buffer
      ensures Valid() && old(Pos()) <= Pos() && data == source[old(Pos())..Pos()]
      ensures outcome.Done? ==> |data| == length
      ensures !outcome.Done? ==> |data| < length && (outcome.TimedOut? || outcome.EndOfStream?)
      ensures outcome.EndOfStream? ==> |source| < old(Pos()) + length
      ensures stalls == old(stalls) + if outcome.TimedOut? || outcome.NothingYet? then 1 else 0
    {
      data := [];
      assert Pos() <= |source|;
      hide Valid, Pos;
      while |data| < length
        invariant Valid() && old(Pos()) <= Pos() && |data| <= length
        invariant data == source[old(Pos())..Pos()] && Pos() <= |source| && stalls == old(stalls)
      {
        ghost var pos := Pos();
        var bytes;
        outcome, bytes := TakeSome(length - |data|);
        if !outcome.Done? { return; }
        assert source[old(Pos())..pos] + source[pos..Pos()] == source[old(Pos())..Pos()];
        data := data + bytes;
      }
      outcome := Done(0);
    }

    /** What check() gives of up to n bytes. */
    method TakeSome(n: nat) returns (outcome: Outcome, bytes: seq<Byte>)
      requires Valid() && n > 0
      modifies this`ptr, this`end, this`offset, this`fd, this`stalls, buffer
      ensures Valid() && old(Pos()) <= Pos() <= |source| && bytes == source[old(Pos())..Pos()]
      ensures outcome.Done? ==> 0 < |bytes| <= n
      ensures !outcome.Done? ==> bytes == [] && (outcome.TimedOut? || outcome.EndOfStream?)
      ensures outcome.EndOfStream? ==> |source| <= Pos()
      ensures stalls == old(stalls) + if outcome.TimedOut? || outcome.NothingYet? then 1 else 0
    {
      bytes := [];
      outcome := Check(1, n, true);
      if outcome.Done? {
        FittingFits(1, n, end - ptr);
        bytes := Take(outcome.n);
      }
    }

    /** Large amounts bypass the buffer once it is empty. */
    method ReadBytesBulk(length: nat) returns (outcome: Outcome, data: seq<Byte>)
      requires Valid()
      modifies this`ptr, this`end, this`offset, this`fd, this`stalls, buffer
      ensures Valid() && old(Pos()) <= Pos() && data == source[old(Pos())..Pos()]
      ensures outcome.Done? ==> |data| == length
      ensures !outcome.Done? ==> |data| < length && (outcome.TimedOut? || outcome.EndOfStream?)
      ensures outcome.EndOfStream? ==> |source| < old(Pos()) + length
      ensures stalls == old(stalls) + if outcome.TimedOut? || outcome.NothingYet? then 1 else 0
    {
      var n := Min(end - ptr, length);
      data := Take(n);
      while |data| < length
        invariant Valid() && old(Pos()) <= Pos() && data == source[old(Pos())..Pos()]
        invariant |data| <= length
        invariant (|data| < length ==> ptr == end) && stalls == old(stalls)
      {
        var bytes;
        outcome, bytes := ReadDirectly(length - |data|);
        if !outcome.Done? { return; }
        data := data + bytes;
      }
      outcome := Done(0);
    }

    /** One read past the empty buffer. */
    method ReadDirectly(length: nat) returns (outcome: Outcome, bytes: seq<Byte>)
      requires Valid() && ptr == end && length > 0
      modifies this`offset, this`fd, this`stalls
      ensures Valid() && old(Pos()) <= Pos() && bytes == source[old(Pos())..Pos()]
      ensures outcome.Done? ==> 0 < |bytes| <= length
      ensures !outcome.Done? ==> bytes == [] && (outcome.TimedOut? || outcome.EndOfStream?)
      ensures outcome.EndOfStream? ==> |source| == Pos()
      ensures stalls == old(stalls) + if outcome.TimedOut? || outcome.NothingYet? then 1 else 0
    {
      assert Unread() == fd;
      outcome, bytes := ReadWithTimeoutOrCallback(length, true);
      assert source[old(Pos())..] == bytes + fd;
      assert source[old(Pos()) + |bytes|..] == fd;
      offset := offset + |bytes|;
      assert Unread() == fd;
    }

    /** check() and the bytes of an item, all of them or none. */
    method ReadItem(size: nat) returns (outcome: Outcome, item: seq<Byte>)
      requires Valid() && size > 0
      modifies this`ptr, this`end, this`offset, this`fd, this`stalls, buffer
      ensures Valid()
      ensures outcome.Done? ==> Pos() == old(Pos()) + size && item == source[old(Pos())..Pos()]
      ensures !outcome.Done? ==> Pos() == old(Pos()) && !outcome.NothingYet? && item == []
      ensures outcome.ItemTooLarge? ==> size > bufSize
      ensures outcome.EndOfStream? ==> |source| - Pos() < size
      ensures stalls == old(stalls) + if outcome.TimedOut? || outcome.NothingYet? then 1 else 0
    {
      item := [];
      outcome := Check(size, 1, true);
      if outcome.Done? { item := Take(size); }
    }

    method ReadU32() returns (outcome: Outcome, value: int)
      requires Valid()
      modifies this`ptr, this`end, this`offset, this`fd, this`stalls, buffer
      ensures Valid()
      ensures outcome.Done? ==>
        Pos() == old(Pos()) + 4 && 0 <= value < 0x1_0000_0000 && U32(value) == source[old(Pos())..Pos()]
      ensures !outcome.Done? ==> Pos() == old(Pos())
      ensures outcome.ItemTooLarge? ==> bufSize < 4
      ensures outcome.EndOfStream? ==> |source| - Pos() < 4
      ensures stalls == old(stalls) + if outcome.TimedOut? || outcome.NothingYet? then 1 else 0
    {
      var item;
      outcome, item := ReadItem(4);
      value := 0;
      if outcome.Done? {
        value := FromU32(item);
        U32OfBytes(item);
      }
    }
  }

  lemma ItemThere(itemSize: nat, nItems: nat, room: int)
    requires itemSize > 0 && nItems > 0 && (itemSize * nItems <= room || itemSize <= room)
    ensures itemSize <= room
  {
    assert itemSize * nItems == itemSize + itemSize * (nItems - 1);
  }

  lemma U16OfBytes(high: Byte, low: Byte)
    ensures 0 <= FromU16(high, low) < 0x1_0000 && U16(FromU16(high, low)) == [high, low]
  {
  }

  lemma U32OfBytes(bytes: seq<Byte>)
    requires |bytes| == 4
    ensures 0 <= FromU32(bytes) < 0x1_0000_0000 && U32(FromU32(bytes)) == bytes
  {
    U16OfBytes(bytes[0], bytes[1]);
    U16OfBytes(bytes[2], bytes[3]);
    var high, low := FromU16(bytes[0], bytes[1]), FromU16(bytes[2], bytes[3]);
    hide U16, FromU16;
    Quotient(high, low);
  }

  lemma Quotient(high: int, low: int)
    requires 0 <= low < 0x1_0000
    ensures (high * 0x1_0000 + low) / 0x1_0000 == high && (high * 0x1_0000 + low) % 0x1_0000 == low
  {
  }
}
