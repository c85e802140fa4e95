/** The buffered output stream: nothing is lost, repeated or reordered, however
    little the descriptor accepts at a time. */
module FdOutStreams {
  import opened Bytes

  datatype Outcome = Done(n: nat) | ItemTooLarge | TimedOut

  class FdOutStream {
    const bufSize: nat
    const buffer: array<Byte>
    var ptr: nat
    var sentUpTo: nat
    var offset: nat
    var blocking: bool
    var fd: seq<Byte>              // what the descriptor has accepted
    ghost var stalls: nat          // how often it has accepted nothing in time

    ghost predicate Valid()
      reads this
    {
      && buffer.Length == bufSize > 0
      && sentUpTo <= ptr <= bufSize
      && offset == |fd|
    }

    /** Everything written to the stream: sent or still in the buffer. */
    ghost function Written(): (bytes: seq<Byte>)
      requires Valid()
      reads this, buffer
    {
      fd + buffer[sentUpTo..ptr]
    }

    constructor (size: nat, blocking: bool)
      ensures Valid() && Written() == [] && fresh(buffer)
      ensures bufSize == (if size == 0 then 16384 else size) && this.blocking == blocking && stalls == 0
    {
      var n := if size == 0 then 16384 else size;
      bufSize := n;
      buffer := new Byte[n](_ => 0);
      ptr, sentUpTo, offset := 0, 0, 0;
      this.blocking := blocking;
      fd := [];
      stalls := 0;
    }

    function Length(): (length: nat)
      requires Valid()
      reads this, buffer
      ensures length == |Written()|
    {
      offset + ptr - sentUpTo
    }

    /** The descriptor takes any part of what it is given, or nothing in time. */
    method WriteWithTimeout(length: nat) returns (n: nat)
      requires Valid() && sentUpTo + length <= ptr
      modifies this`fd, this`stalls
      ensures n <= length && fd == old(fd) + buffer[sentUpTo..sentUpTo + n]
      ensures stalls == old(stalls) + if n == 0 then 1 else 0
    {
      n :| 0 <= n <= length;
      fd := fd + buffer[sentUpTo..sentUpTo + n];
      if n == 0 { stalls := stalls + 1; }
    }

    method Flush() returns (outcome: Outcome)
      requires Valid()
      modifies this`ptr, this`sentUpTo, this`offset, this`fd, this`stalls
      ensures Valid() && Written() == old(Written()) && old(fd) <= fd
      ensures outcome.Done? || (outcome.TimedOut? && blocking)
      ensures outcome.Done? && blocking ==> fd == Written()
      ensures outcome.Done? && fd == Written() ==> ptr == 0
      ensures old(stalls) <= stalls && (stalls == old(stalls) ==> outcome.Done? && fd == Written())
    {
      while sentUpTo < ptr
        invariant Valid() && Written() == old(Written()) && old(fd) <= fd && stalls == old(stalls)
        decreases ptr - sentUpTo
      {
        var n := SendSome();
        if n == 0 {
          if !blocking { break; }
          return TimedOut;
        }
      }
      if sentUpTo == ptr {
        Rewind();
      }
      outcome := Done(0);
    }

    /** One turn of flush: as much as the descriptor takes. */
    method SendSome() returns (n: nat)
      requires Valid()
      modifies this`sentUpTo, this`offset, this`fd, this`stalls
      ensures Valid() && Written() == old(Written()) && old(fd) <= fd && sentUpTo == old(sentUpTo) + n
      ensures stalls == old(stalls) + if n == 0 then 1 else 0
    {
      n := WriteWithTimeout(ptr - sentUpTo);
      ghost var gone, left := buffer[sentUpTo..sentUpTo + n], buffer[sentUpTo + n..ptr];
      assert buffer[sentUpTo..ptr] == gone + left;
      assert old(fd) + (gone + left) == old(fd) + gone + left;
      sentUpTo := sentUpTo + n;
      offset := offset + n;
    }

    /** Everything is sent: start at the front again. */
    method Rewind()
      requires Valid() && sentUpTo == ptr
      modifies this`ptr, this`sentUpTo
      ensures Valid() && ptr == 0 && Written() == old(Written())
    {
      ptr, sentUpTo := 0, 0;
    }

    /** Make room for an item; how many of the items fit then. When the flush that
        turned blocking on times out, it stays on. */
    method Overrun(itemSize: nat, nItems: nat) returns (outcome: Outcome)
      requires Valid() && itemSize > 0
      modifies this`ptr, this`sentUpTo, this`offset, this`fd, this`stalls, this`blocking, buffer
      ensures Valid() && Written() == old(Written()) && old(fd) <= fd
      ensures outcome.ItemTooLarge? <==> itemSize > bufSize
      ensures outcome.Done? ==> bufSize - ptr >= itemSize
      ensures outcome.Done? ==> outcome.n == Fitting(itemSize, nItems, bufSize - ptr)
      ensures blocking == (old(blocking) || outcome.TimedOut?)
      ensures old(stalls) <= stalls && (outcome.TimedOut? ==> stalls > old(stalls))
    {
      if itemSize > bufSize { return ItemTooLarge; }
      outcome := Flush();
      if !outcome.Done? { return; }
      if itemSize > bufSize - ptr {
        if sentUpTo > bufSize / 4 && itemSize < bufSize - (ptr - sentUpTo) {
          Shuffle();
        } else {
          outcome := FlushBlocking();
          if !outcome.Done? { return; }
        }
      }
      outcome := Done(Fitting(itemSize, nItems, bufSize - ptr));
    }

    /** memmove what is left to the start of the buffer. */
    method Shuffle()
      requires Valid()
      modifies this`ptr, this`sentUpTo, buffer
      ensures Valid() && Written() == old(Written())
      ensures sentUpTo == 0 && ptr == old(ptr - sentUpTo)
    {
      ghost var left := buffer[sentUpTo..ptr];
      var n, shift := ptr - sentUpTo, sentUpTo;
      for i := 0 to n
        invariant forall k :: 0 <= k < i ==> buffer[k] == left[k]
        invariant forall k :: i <= k < n ==> buffer[shift + k] == left[k]
        invariant unchanged(this)
      {
        buffer[i] := buffer[shift + i];
      }
      ptr := n;
      sentUpTo := 0;
      assert buffer[..n] == left;
    }

    method FlushBlocking() returns (outcome: Outcome)
      requires Valid()
      modifies this`ptr, this`sentUpTo, this`offset, this`fd, this`stalls, this`blocking
      ensures Valid() && Written() == old(Written()) && old(fd) <= fd
      ensures outcome.Done? || outcome.TimedOut?
      ensures outcome.Done? ==> ptr == 0
      ensures blocking == (old(blocking) || outcome.TimedOut?)
      ensures old(stalls) <= stalls && (outcome.TimedOut? ==> stalls > old(stalls))
    {
      var realBlocking := blocking;
      blocking := true;
      outcome := Flush();
      if !outcome.Done? { return; }
      blocking := realBlocking;
    }

    method Check(itemSize: nat, nItems: nat) returns (outcome: Outcome)
      requires Valid() && itemSize > 0
      modifies this`ptr, this`sentUpTo, this`offset, this`fd, this`stalls, this`blocking, buffer
      ensures Valid() && Written() == old(Written()) && old(fd) <= fd
      ensures outcome.ItemTooLarge? ==> itemSize > bufSize
      ensures outcome.Done? && nItems > 0 ==> bufSize - ptr >= itemSize
      ensures outcome.Done? ==> outcome.n == Fitting(itemSize, nItems, bufSize - ptr)
      ensures blocking == (old(blocking) || outcome.TimedOut?)
      ensures old(stalls) <= stalls && (outcome.TimedOut? ==> stalls > old(stalls))
    {
      if ptr + itemSize * nItems > bufSize && ptr + itemSize > bufSize {
        outcome := Overrun(itemSize, nItems);
      } else {
        if nItems > 0 { ItemFits(itemSize, nItems, bufSize - ptr); }
        outcome := Done(Fitting(itemSize, nItems, bufSize - ptr));
      }
    }

    /** Store bytes behind what is there. */
    method Store(data: seq<Byte>)
      requires Valid() && |data| <= bufSize - ptr
      modifies this`ptr, buffer
      ensures Valid() && Written() == old(Written()) + data
      ensures ptr == old(ptr) + |data|
    {
      ghost var before := buffer[sentUpTo..ptr];
      for i := 0 to |data|
        invariant unchanged(this)
        invariant buffer[ptr..ptr + i] == data[..i]
        invariant buffer[sentUpTo..ptr] == before
      {
        buffer[ptr + i] := data[i];
      }
      assert buffer[sentUpTo..ptr + |data|] == before + data;
      ptr := ptr + |data|;
    }

    method WriteBytes(data: seq<Byte>) returns (outcome: Outcome)
      requires Valid()
      modifies this`ptr, this`sentUpTo, this`offset, this`fd, this`stalls, this`blocking, buffer
      ensures Valid() && old(fd) <= fd && !outcome.ItemTooLarge?
      ensures blocking == (old(blocking) || outcome.TimedOut?)
      ensures old(stalls) <= stalls && (outcome.TimedOut? ==> stalls > old(stalls))
      ensures outcome.Done? ==> Written() == old(Written()) + data
      ensures outcome.TimedOut? ==> exists k :: 0 <= k <= |data| && Written() == old(Written()) + data[..k]
    {
      hide Valid, Written;
      var done := 0;
      assert data[..0] == [];
      while done < |data|
        invariant Valid() && old(fd) <= fd && done <= |data| && blocking == old(blocking) && old(stalls) <= stalls
        invariant Written() == old(Written()) + data[..done]
      {
        outcome := WriteSome(data[done..]);
        if outcome.TimedOut? { return; }
        assert data[..done + outcome.n] == data[..done] + data[done..][..outcome.n];
        done := done + outcome.n;
      }
      assert data[..done] == data;
      outcome := Done(0);
    }

    /** As much of the data as check() finds room for. */
    method WriteSome(data: seq<Byte>) returns (outcome: Outcome)
      requires Valid() && data != []
      modifies this`ptr, this`sentUpTo, this`offset, this`fd, this`stalls, this`blocking, buffer
      ensures Valid() && old(fd) <= fd && !outcome.ItemTooLarge?
      ensures blocking == (old(blocking) || outcome.TimedOut?)
      ensures old(stalls) <= stalls && (outcome.TimedOut? ==> stalls > old(stalls))
      ensures outcome.Done? ==> 0 < outcome.n <= |data| && Written() == old(Written()) + data[..outcome.n]
      ensures outcome.TimedOut? ==> Written() == old(Written())
    {
      hide Written;
      outcome := Check(1, |data|);
      if outcome.Done? {
        FittingFits(1, |data|, bufSize - ptr);
        Store(data[..outcome.n]);
      }
    }

    /** check() and the bytes of an item: it goes in whole or not at all. */
    method WriteItem(item: seq<Byte>) returns (outcome: Outcome)
      requires Valid() && item != []
      modifies this`ptr, this`sentUpTo, this`offset, this`fd, this`stalls, this`blocking, buffer
      ensures Valid() && old(fd) <= fd
      ensures outcome.ItemTooLarge? ==> |item| > bufSize
      ensures blocking == (old(blocking) || outcome.TimedOut?)
      ensures old(stalls) <= stalls && (outcome.TimedOut? ==> stalls > old(stalls))
      ensures Written() == old(Written()) + if outcome.Done? then item else []
    {
      outcome := Check(|item|, 1);
      if outcome.Done? { Store(item); }
    }

    method WriteU32(value: int) returns (outcome: Outcome)
      requires Valid() && 0 <= value < 0x1_0000_0000
      modifies this`ptr, this`sentUpTo, this`offset, this`fd, this`stalls, this`blocking, buffer
      ensures Valid() && old(fd) <= fd && (outcome.ItemTooLarge? ==> bufSize < 4)
      ensures blocking == (old(blocking) || outcome.TimedOut?)
      ensures old(stalls) <= stalls && (outcome.TimedOut? ==> stalls > old(stalls))
      ensures Written() == old(Written()) + if outcome.Done? then U32(value) else []
    {
      outcome := WriteItem(U32(value));
    }
  }

  lemma ItemFits(itemSize: nat, nItems: nat, room: nat)
    requires itemSize > 0 && nItems > 0 && (itemSize * nItems <= room || itemSize <= room)
    ensures itemSize <= room
  {
    assert itemSize * nItems == itemSize + itemSize * (nItems - 1);
  }
}
