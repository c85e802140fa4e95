/** Bytes as hexadecimal digits and back, through buffers of any size. */
module HexStreams {
  import opened Arithmetic
  import opened Bytes

  datatype Outcome = Done(n: nat) | NothingYet | ItemTooLarge | EndOfStream

  function IntToHex(i: int): char
    requires 0 <= i <= 15
  {
    if i <= 9 then '0' + i as char else 'a' + (i - 10) as char
  }

  function ToLower(c: char): char {
    if 'A' <= c <= 'Z' then c - 'A' + 'a' else c
  }

  /** readHexAndShift: v is left alone when c is no digit. */
  function ReadHexAndShift(c: char, v: int): int {
    var d := ToLower(c);
    if '0' <= d <= '9' then v * 16 + (d - '0') as int
    else if 'a' <= d <= 'f' then v * 16 + (d - 'a') as int + 10
    else v
  }

  predicate IsHexDigit(c: char) {
    var d := ToLower(c);
    '0' <= d <= '9' || 'a' <= d <= 'f'
  }

  function HexDigits(b: Byte): string {
    [IntToHex(b / 16), IntToHex(b % 16)]
  }

  function ReadPair(high: char, low: char): (b: int)
    ensures 0 <= b < 256
  {
    ReadHexAndShift(low, ReadHexAndShift(high, 0))
  }

  function ToHex(data: seq<Byte>): (s: string)
    ensures |s| == 2 * |data|
  {
    if data == [] then [] else ToHex(data[..|data| - 1]) + HexDigits(data[|data| - 1])
  }

  function FromHex(s: string): (data: seq<Byte>)
    ensures |data| == |s| / 2
  {
    if |s| < 2 then [] else [ReadPair(s[0], s[1])] + FromHex(s[2..])
  }

  lemma PairRoundTrip(b: Byte)
    ensures ReadPair(HexDigits(b)[0], HexDigits(b)[1]) == b
  {
  }

  lemma {:induction false} FromHexAppend(s: string, high: char, low: char)
    requires |s| % 2 == 0
    ensures FromHex(s + [high, low]) == FromHex(s) + [ReadPair(high, low)]
  {
    hide ReadPair;
    if s == [] {
      assert s + [high, low] == [high, low] && [high, low][2..] == [];
    } else {
      assert (s + [high, low])[2..] == s[2..] + [high, low];
      FromHexAppend(s[2..], high, low);
    }
  }

  /** Digits written and read again. */
  lemma {:induction false} HexRoundTrip(data: seq<Byte>)
    ensures FromHex(ToHex(data)) == data
  {
    if data != [] {
      var n := |data| - 1;
      HexRoundTrip(data[..n]);
      PairRoundTrip(data[n]);
      hide ReadPair;
      var pair := HexDigits(data[n]);
      assert pair == [pair[0], pair[1]];
      FromHexAppend(ToHex(data[..n]), pair[0], pair[1]);
      assert data == data[..n] + [data[n]];
    }
  }

  lemma ToHexStep(data: seq<Byte>, n: nat)
    requires n < |data|
    ensures ToHex(data[..n + 1]) == ToHex(data[..n]) + HexDigits(data[n])
  {
    assert data[..n + 1][..n] == data[..n];
  }

  /** The next pair of a string. */
  lemma FromHexStep(s: string, n: nat)
    requires 2 * n + 2 <= |s|
    ensures FromHex(s[2 * n..]) == [ReadPair(s[2 * n], s[2 * n + 1])] + FromHex(s[2 * n + 2..])
  {
    assert s[2 * n..][2..] == s[2 * n + 2..];
  }

  function LowerDigit(d: nat): char
    requires d < 16
  {
    "0123456789abcdef"[d]
  }

  function UpperDigit(d: nat): char
    requires d < 16
  {
    "0123456789ABCDEF"[d]
  }

  /** Digit d of the sixteen, in lower or upper case. */
  predicate IsDigit(c: char, d: nat) {
    d < 16 && (c == LowerDigit(d) || c == UpperDigit(d))
  }

  lemma DigitWritten(d: nat)
    requires d < 16
    ensures IntToHex(d) == LowerDigit(d)
    ensures UpperDigit(d) == if d < 10 then '0' + d as char else 'A' + (d - 10) as char
  {
  }

  lemma IsOneDigit(c: char, d: nat)
    requires d < 16
    ensures IsDigit(c, d) <==> IsHexDigit(c) && ReadHexAndShift(c, 0) == d
    ensures IsDigit(c, d) ==> forall v :: ReadHexAndShift(c, v) == 16 * v + d
  {
    DigitWritten(d);
    hide LowerDigit, UpperDigit;
  }

  /** The digits are the sixteen, in lower or upper case. */
  lemma DigitRead(c: char)
    ensures IsHexDigit(c) <==> exists d: nat :: IsDigit(c, d)
  {
    if IsHexDigit(c) { IsOneDigit(c, ReadHexAndShift(c, 0)); }
    if exists d: nat :: IsDigit(c, d) {
      var d: nat :| IsDigit(c, d);
      IsOneDigit(c, d);
    }
  }

  /** The byte of two digits, the high one first. */
  ghost predicate PairIs(high: char, low: char, b: int) {
    exists h: nat, l: nat :: IsDigit(high, h) && IsDigit(low, l) && b == 16 * h + l
  }

  lemma PairRead(high: char, low: char)
    requires IsHexDigit(high) && IsHexDigit(low)
    ensures PairIs(high, low, ReadPair(high, low))
  {
    DigitRead(high);
    DigitRead(low);
    var h: nat :| IsDigit(high, h);
    var l: nat :| IsDigit(low, l);
    IsOneDigit(high, h);
    IsOneDigit(low, l);
    hide IsDigit, ReadHexAndShift, IsHexDigit;
  }

  /** The digits of a byte are at twice its place. */
  lemma {:induction false} ToHexAt(data: seq<Byte>, k: nat)
    requires k < |data|
    ensures ToHex(data)[2 * k] == LowerDigit(data[k] / 16)
    ensures ToHex(data)[2 * k + 1] == LowerDigit(data[k] % 16)
  {
    var n := |data| - 1;
    if k < n {
      ToHexAt(data[..n], k);
    } else {
      DigitWritten(data[k] / 16);
      DigitWritten(data[k] % 16);
    }
    hide IntToHex;
  }

  lemma {:induction false} FromHexAt(s: string, k: nat)
    requires 2 * k + 2 <= |s| && AllDigits(s)
    ensures PairIs(s[2 * k], s[2 * k + 1], FromHex(s)[k])
  {
    hide ReadPair, IsHexDigit, PairIs;
    if k > 0 {
      assert s[2..][2 * (k - 1)] == s[2 * k] && s[2..][2 * (k - 1) + 1] == s[2 * k + 1];
      FromHexAt(s[2..], k - 1);
    } else {
      PairRead(s[0], s[1]);
    }
  }

  // ---------------------------------------------------------------- strings

  method BinToHexStr(data: seq<Byte>) returns (s: string)
    ensures s == ToHex(data)
    ensures |s| == 2 * |data| && forall k :: 0 <= k < |data| ==>
              s[2 * k] == LowerDigit(data[k] / 16) && s[2 * k + 1] == LowerDigit(data[k] % 16)
  {
    var buffer := new char[2 * |data|](_ => '0');
    assert ToHex(data[..0]) == [];
    for i := 0 to |data|
      invariant buffer[..2 * i] == ToHex(data[..i])
    {
      ghost var before := buffer[..2 * i];
      buffer[2 * i] := IntToHex(data[i] / 16);
      buffer[2 * i + 1] := IntToHex(data[i] % 16);
      ToHexStep(data, i);
      assert buffer[..2 * i + 2] == before + HexDigits(data[i]);
    }
    assert data[..|data|] == data;
    s := buffer[..];
    hide ToHex;
    forall k | 0 <= k < |data|
      ensures s[2 * k] == LowerDigit(data[k] / 16) && s[2 * k + 1] == LowerDigit(data[k] % 16)
    {
      ToHexAt(data, k);
    }
  }

  predicate AllDigits(s: string) {
    forall k :: 0 <= k < |s| ==> IsHexDigit(s[k])
  }

  method HexStrToBin(s: string) returns (ok: bool, data: seq<Byte>)
    ensures ok <==> |s| % 2 == 0 && AllDigits(s)
    ensures data == if ok then FromHex(s) else []
    ensures ok ==> forall k :: 0 <= k < |data| ==> PairIs(s[2 * k], s[2 * k + 1], data[k])
  {
    data := [];
    if |s| % 2 != 0 { return false, []; }
    FromHexStart(s);
    hide ReadPair, FromHex, IsHexDigit, AllDigits;
    for n := 0 to |s| / 2
      invariant AllDigits(s[..2 * n])
      invariant Decoded(s, n, data)
    {
      DigitsStep(s, n);
      if !IsHexDigit(s[2 * n]) || !IsHexDigit(s[2 * n + 1]) { return false, []; }
      DecodedStep(s, n, data);
      data := data + [ReadPair(s[2 * n], s[2 * n + 1])];
    }
    assert s[..2 * (|s| / 2)] == s;
    ok := true;
    forall k | 0 <= k < |data| ensures PairIs(s[2 * k], s[2 * k + 1], data[k]) {
      FromHexAt(s, k);
    }
  }

  /** The first n pairs are decoded. */
  ghost predicate Decoded(s: string, n: nat, data: seq<Byte>) {
    2 * n <= |s| && data + FromHex(s[2 * n..]) == FromHex(s)
  }

  lemma FromHexStart(s: string)
    ensures Decoded(s, 0, []) && AllDigits(s[..0])
    ensures forall data :: |s| % 2 == 0 && Decoded(s, |s| / 2, data) ==> data == FromHex(s)
  {
    assert s[0..] == s && FromHex([]) == [];
    forall data | |s| % 2 == 0 && Decoded(s, |s| / 2, data) ensures data == FromHex(s) {
      assert data + [] == data;
    }
  }

  lemma DecodedStep(s: string, n: nat, data: seq<Byte>)
    requires Decoded(s, n, data) && 2 * n + 2 <= |s|
    ensures Decoded(s, n + 1, data + [ReadPair(s[2 * n], s[2 * n + 1])])
  {
    hide ReadPair, FromHex;
    FromHexStep(s, n);
    var b, rest := ReadPair(s[2 * n], s[2 * n + 1]), FromHex(s[2 * n + 2..]);
    assert data + ([b] + rest) == data + [b] + rest;
  }

  lemma DigitsStep(s: string, n: nat)
    requires 2 * n + 2 <= |s| && AllDigits(s[..2 * n])
    ensures AllDigits(s[..2 * (n + 1)]) <==> IsHexDigit(s[2 * n]) && IsHexDigit(s[2 * n + 1])
    ensures AllDigits(s) ==> IsHexDigit(s[2 * n]) && IsHexDigit(s[2 * n + 1])
  {
    hide IsHexDigit;
    var more := s[..2 * (n + 1)];
    assert AllDigits(more) ==> IsHexDigit(more[2 * n]) && IsHexDigit(more[2 * n + 1]);
    forall k | 0 <= k < |more| && IsHexDigit(s[2 * n]) && IsHexDigit(s[2 * n + 1]) ensures IsHexDigit(more[k]) {
      assert k < 2 * n ==> more[k] == s[..2 * n][k];
    }
  }

  // ----------------------------------------------------------------- output

  class HexOutStream {
    const bufSize: nat
    const buffer: array<Byte>
    var ptr: nat
    var offset: nat
    var out: string                // written to the stream underneath
    ghost var written: seq<Byte>   // written to this one

    ghost predicate Valid()
      reads this, buffer
    {
      && buffer.Length == bufSize && bufSize % 2 == 0
      && ptr <= bufSize
      && |written| == offset + ptr
      && written[offset..] == buffer[..ptr]
      && out == ToHex(written[..offset])
    }

    /** The size is made even; a size of one leaves no buffer at all. */
    constructor (size: nat)
      ensures Valid() && written == [] && out == [] && fresh(buffer)
      ensures bufSize == (if size == 0 then 16384 else size - size % 2)
    {
      var n := if size == 0 then 16384 else size - size % 2;
      bufSize := n;
      buffer := new Byte[n](_ => 0);
      ptr, offset := 0, 0;
      out := [];
      written := [];
    }

    function Length(): (length: nat)
      requires Valid()
      reads this, buffer
      ensures length == |written|
    {
      offset + ptr
    }

    /** Everything so far goes out, in as many pieces as there is room for below. */
    method WriteBuffer()
      requires Valid()
      modifies this`ptr, this`offset, this`out
      ensures Valid() && ptr == 0 && out == ToHex(written)
    {
      hide ToHex;
      var pos := 0;
      while pos != ptr
        invariant pos <= ptr && unchanged(this`ptr) && unchanged(this`offset)
        invariant out == ToHex(written[..offset + pos])
        decreases ptr - pos
      {
        var room: nat :| room >= 2;
        var length := Min(ptr - pos, room / 2);
        WritePairs(pos, length);
        pos := pos + length;
      }
      assert written[..offset + pos] == written;
      offset := offset + ptr;
      ptr := 0;
      assert written[..offset] == written;
    }

    method WritePairs(pos: nat, length: nat)
      requires buffer.Length == bufSize && pos + length <= ptr <= bufSize && |written| == offset + ptr
      requires written[offset..] == buffer[..ptr] && out == ToHex(written[..offset + pos])
      modifies this`out
      ensures out == ToHex(written[..offset + pos + length])
    {
      hide ToHex, HexDigits;
      for i := 0 to length
        invariant out == ToHex(written[..offset + pos + i])
      {
        ToHexStep(written, offset + pos + i);
        assert written[offset..][pos + i] == buffer[pos + i];
        out := out + HexDigits(buffer[pos + i]);
      }
    }

    method Overrun(itemSize: nat, nItems: nat) returns (outcome: Outcome)
      requires Valid() && itemSize > 0
      modifies this`ptr, this`offset, this`out
      ensures Valid()
      ensures outcome == if itemSize > bufSize then ItemTooLarge else Done(Fitting(itemSize, nItems, bufSize))
      ensures outcome.Done? ==> ptr == 0
    {
      if itemSize > bufSize { return ItemTooLarge; }
      WriteBuffer();
      outcome := Done(Fitting(itemSize, nItems, bufSize - ptr));
    }

    method WriteBytes(data: seq<Byte>) returns (outcome: Outcome)
      requires Valid()
      modifies this, buffer
      ensures Valid()
      ensures outcome.Done? <==> data == [] || bufSize > 0
      ensures written == old(written) + if outcome.Done? then data else []
    {
      hide ToHex, Fitting;
      var done := 0;
      outcome := Done(0);
      assert data[..0] == [];
      while done < |data|
        invariant Valid() && done <= |data| && outcome.Done? && (done > 0 ==> bufSize > 0)
        invariant written == old(written) + data[..done]
      {
        outcome := WriteSome(data[done..]);
        if !outcome.Done? { return; }
        assert data[..done + outcome.n] == data[..done] + data[done..][..outcome.n];
        done := done + outcome.n;
      }
      assert data[..done] == data;
    }

    /** As much as check() finds room for. */
    method WriteSome(data: seq<Byte>) returns (outcome: Outcome)
      requires Valid() && data != []
      modifies this, buffer
      ensures Valid()
      ensures outcome.Done? <==> bufSize > 0
      ensures outcome.Done? ==> 0 < outcome.n <= |data| && written == old(written) + data[..outcome.n]
      ensures !outcome.Done? ==> written == old(written)
    {
      hide ToHex;
      outcome := Done(Fitting(1, |data|, bufSize - ptr));
      if ptr + 1 > bufSize {
        outcome := Overrun(1, |data|);
        if !outcome.Done? { return; }
      }
      FittingFits(1, |data|, bufSize - ptr);
      Store(data[..outcome.n]);
    }

    method Store(bytes: seq<Byte>)
      requires Valid() && |bytes| <= bufSize - ptr
      modifies this`ptr, this`written, buffer
      ensures Valid() && written == old(written) + bytes
    {
      hide ToHex;
      ghost var before := buffer[..ptr];
      for i := 0 to |bytes|
        invariant unchanged(this)
        invariant buffer[ptr..ptr + i] == bytes[..i] && buffer[..ptr] == before
      {
        buffer[ptr + i] := bytes[i];
      }
      assert buffer[..ptr + |bytes|] == before + bytes;
      assert (written + bytes)[offset..] == written[offset..] + bytes;
      assert (written + bytes)[..offset] == written[..offset];
      ptr := ptr + |bytes|;
      written := written + bytes;
    }
  }

  // ------------------------------------------------------------------ input

  class HexInStream {
    const bufSize: nat
    const buffer: array<Byte>
    var ptr: nat
    var end: nat
    var offset: nat
    var input: string              // what the stream underneath has still to deliver
    ghost const source: string
    ghost var stalls: nat          // how often it had nothing yet

    ghost predicate Valid()
      reads this, buffer
    {
      && buffer.Length == bufSize > 0
      && ptr <= end <= bufSize
      && offset + ptr <= |FromHex(source)|
      && buffer[ptr..end] + FromHex(input) == FromHex(source)[offset + ptr..]
    }

    constructor (size: nat, input: string)
      ensures Valid() && source == input && Pos() == 0 && fresh(buffer)
      ensures bufSize == if size == 0 then 16384 else size
    {
      var n := if size == 0 then 16384 else size;
      bufSize := n;
      buffer := new Byte[n](_ => 0);
      ptr, end, offset := 0, 0, 0;
      this.input := input;
      source := input;
      stalls := 0;
    }

    function Pos(): nat
      reads this
    {
      offset + ptr
    }

    method Overrun(itemSize: nat, nItems: nat, wait: bool) returns (outcome: Outcome)
      requires Valid() && itemSize > 0
      modifies this`ptr, this`end, this`offset, this`input, this`stalls, buffer
      ensures Valid() && Pos() == old(Pos())
      ensures outcome.ItemTooLarge? <==> itemSize > bufSize
      ensures outcome.Done? ==> end - ptr >= itemSize && outcome.n == Fitting(itemSize, nItems, end - ptr)
      ensures outcome.NothingYet? ==> !wait
      ensures outcome.EndOfStream? ==> |FromHex(source)| - Pos() < itemSize
      ensures stalls == old(stalls) + if outcome.NothingYet? then 1 else 0
    {
      hide FromHex;
      if itemSize > bufSize { return ItemTooLarge; }
      ToStart();
      while end < itemSize
        invariant Valid() && Pos() == old(Pos()) && ptr == 0 && stalls == old(stalls)
        decreases itemSize - end
      {
        var ready: bool := *;
        if !wait && !ready {
          stalls := stalls + 1;
          return NothingYet;
        }
        if |input| < 2 { return EndOfStream; }
        var available: nat :| 2 <= available <= |input|;
        ReadPairs(Min(available / 2, bufSize - end));
      }
      outcome := Done(Fitting(itemSize, nItems, end - ptr));
    }

    method ToStart()
      requires Valid()
      modifies this`ptr, this`end, this`offset, buffer
      ensures Valid() && Pos() == old(Pos()) && ptr == 0
    {
      hide FromHex;
      ghost var left := buffer[ptr..end];
      var n, shift := end - ptr, ptr;
      for i := 0 to n
        invariant unchanged(this)
        invariant forall k :: 0 <= k < i ==> buffer[k] == left[k]
        invariant buffer[shift + i..end] == left[i..]
      {
        assert buffer[shift + i] == left[i];
        buffer[i] := buffer[shift + i];
      }
      offset := offset + ptr;
      end := n;
      ptr := 0;
      assert buffer[..n] == left;
    }

    /** Decode so many pairs into the buffer. */
    method ReadPairs(length: nat)
      requires Valid() && 2 * length <= |input| && end + length <= bufSize
      modifies this`end, this`input, buffer
      ensures Valid() && end == old(end) + length
    {
      hide FromHex;
      ghost var before := buffer[ptr..end];
      ghost var decoded := DecodePairs(length);
      ghost var rest := FromHex(input[2 * length..]);
      assert decoded + rest == FromHex(input);
      assert buffer[ptr..end + length] + rest == before + (decoded + rest);
      input := input[2 * length..];
      end := end + length;
    }

    method DecodePairs(length: nat) returns (ghost decoded: seq<Byte>)
      requires buffer.Length == bufSize && ptr <= end && 2 * length <= |input| && end + length <= bufSize
      modifies buffer
      ensures Decoded(input, length, decoded) && buffer[end..end + length] == decoded
      ensures buffer[ptr..end] == old(buffer[ptr..end])
    {
      hide ReadPair, FromHex, Decoded;
      decoded := [];
      FromHexStart(input);
      for i := 0 to length
        invariant |decoded| == i && Decoded(input, i, decoded)
        invariant buffer[end..end + i] == decoded && buffer[ptr..end] == old(buffer[ptr..end])
      {
        DecodedStep(input, i, decoded);
        buffer[end + i] := ReadPair(input[2 * i], input[2 * i + 1]);
        decoded := decoded + [ReadPair(input[2 * i], input[2 * i + 1])];
      }
    }

    /** All of the data, unless the digits run out. */
    method ReadBytes(length: nat) returns (outcome: Outcome, data: seq<Byte>)
      requires Valid()
      modifies this`ptr, this`end, this`offset, this`input, this`stalls, buffer
      ensures Valid() && old(Pos()) <= Pos() && data == FromHex(source)[old(Pos())..Pos()]
      ensures outcome.Done? || outcome.EndOfStream?
      ensures outcome.Done? ==> |data| == length
      ensures outcome.EndOfStream? ==> |FromHex(source)| < old(Pos()) + length
    {
      hide FromHex;
      data := [];
      outcome := Done(0);
      while |data| < length
        invariant Valid() && old(Pos()) <= Pos() && data == FromHex(source)[old(Pos())..Pos()]
        invariant |data| <= length && outcome.Done?
      {
        var bytes;
        outcome, bytes := ReadSome(length - |data|);
        if !outcome.Done? { return; }
        data := data + bytes;
      }
    }

    /** As much as check() finds in the buffer. */
    method ReadSome(length: nat) returns (outcome: Outcome, bytes: seq<Byte>)
      requires Valid() && length > 0
      modifies this`ptr, this`end, this`offset, this`input, this`stalls, buffer
      ensures Valid() && old(Pos()) <= Pos() && bytes == FromHex(source)[old(Pos())..Pos()]
      ensures outcome.Done? || outcome.EndOfStream?
      ensures outcome.Done? ==> 0 < |bytes| <= length
      ensures outcome.EndOfStream? ==> |FromHex(source)| == Pos() == old(Pos())
    {
      hide FromHex;
      bytes := [];
      outcome := Done(Fitting(1, length, end - ptr));
      if ptr + 1 > end {
        outcome := Overrun(1, length, true);
        if !outcome.Done? { return; }
      }
      FittingFits(1, length, end - ptr);
      bytes := Take(outcome.n);
    }

    method Take(n: nat) returns (bytes: seq<Byte>)
      requires Valid() && n <= end - ptr
      modifies this`ptr
      ensures Valid() && Pos() == old(Pos()) + n
      ensures bytes == FromHex(source)[old(Pos())..Pos()]
    {
      hide FromHex;
      ghost var rest := FromHex(source)[offset + ptr..];
      assert buffer[ptr..end] == buffer[ptr..ptr + n] + buffer[ptr + n..end];
      bytes := buffer[ptr..ptr + n];
      assert rest[..n] == bytes && rest[n..] == buffer[ptr + n..end] + FromHex(input);
      ptr := ptr + n;
    }
  }

  /** What goes in comes out, for all buffer sizes but one. */
  method ThroughHex(data: seq<Byte>, outSize: nat, inSize: nat) returns (back: seq<Byte>)
    requires outSize != 1
    ensures back == data
  {
    hide ToHex, FromHex;
    var o := new HexOutStream(outSize);
    var outcome := o.WriteBytes(data);
    assert o.written == data;
    o.WriteBuffer();
    HexRoundTrip(data);
    assert FromHex(o.out) == data;
    var i := new HexInStream(inSize, o.out);
    outcome, back := i.ReadBytes(|data|);
  }
}
