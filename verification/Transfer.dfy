/** The two descriptor streams end to end. */
module Transfers {
  import opened Bytes
  import FdOutStreams
  import FdInStreams

  const MAX_STRING_LENGTH := 65535

  /** OutStream::writeString, flushed; it fails only if the descriptor stalls or the
      buffer has no room for a length. */
  method WriteString(os: FdOutStreams.FdOutStream, s: seq<Byte>) returns (ok: bool)
    requires os.Valid() && |s| < 0x1_0000_0000
    modifies os, os.buffer
    ensures os.Valid() && old(os.stalls) <= os.stalls
    ensures ok ==> os.Written() == old(os.Written()) + U32(|s|) + s
    ensures ok && old(os.blocking) ==> os.fd == os.Written()
    ensures os.stalls == old(os.stalls) && os.bufSize >= 4 ==> ok && os.fd == os.Written()
  {
    hide U32;
    var outcome := os.WriteU32(|s|);
    if !outcome.Done? { return false; }
    outcome := os.WriteBytes(s);
    if !outcome.Done? { return false; }
    outcome := os.Flush();
    ok := outcome.Done?;
  }

  /** A length and as many bytes, from `at` on; longer strings are refused. */
  ghost predicate StringThere(source: seq<Byte>, at: nat) {
    && at + 4 <= |source| && 0 <= FromU32(source[at..at + 4]) <= 65535
    && at + 4 + FromU32(source[at..at + 4]) <= |source|
  }

  ghost function StringAt(source: seq<Byte>, at: nat): seq<Byte>
    requires StringThere(source, at)
  {
    source[at + 4..at + 4 + FromU32(source[at..at + 4])]
  }

  /** InStream::readString; a longer string is refused. */
  method ReadString(is': FdInStreams.FdInStream) returns (ok: bool, s: seq<Byte>)
    requires is'.Valid()
    modifies is', is'.buffer
    ensures is'.Valid() && old(is'.stalls) <= is'.stalls
    ensures ok ==> StringThere(is'.source, old(is'.Pos())) && s == StringAt(is'.source, old(is'.Pos()))
    ensures is'.stalls == old(is'.stalls) && is'.bufSize >= 4 && StringThere(is'.source, old(is'.Pos())) ==> ok
  {
    hide U32, FromU32;
    ghost var at := is'.Pos();
    var outcome, length := is'.ReadU32();
    if outcome.Done? { LengthIs(is'.source, at, length); }
    if !outcome.Done? || length > MAX_STRING_LENGTH { return false, []; }
    outcome, s := is'.ReadBytes(length);
    ok := outcome.Done?;
  }

  lemma LengthIs(source: seq<Byte>, at: nat, length: int)
    requires 0 <= length < 0x1_0000_0000 && at + 4 <= |source| && U32(length) == source[at..at + 4]
    ensures FromU32(source[at..at + 4]) == length
  {
    U32At(length, source[at..at + 4]);
    hide U32, FromU32;
  }

  /** A string that gets through arrives as it was sent, whatever the buffers, and it
      does get through if it is not too long and no descriptor stalls. */
  method ThroughDescriptor(s: seq<Byte>, outSize: nat, inSize: nat)
    returns (ok: bool, back: seq<Byte>, ghost stalled: bool)
    requires |s| < 0x1_0000_0000
    ensures ok ==> back == s && |s| <= 65535
    ensures !stalled && |s| <= 65535 && !(outSize in {1, 2, 3}) && !(inSize in {1, 2, 3}) ==> ok
  {
    hide U32, FromU32, StringThere, StringAt;
    var os := new FdOutStreams.FdOutStream(outSize, true);
    var sent := WriteString(os, s);
    stalled := os.stalls > 0;
    if !sent { return false, [], stalled; }
    var input := new FdInStreams.FdInStream(inSize, os.fd);
    ok, back := ReadString(input);
    stalled := stalled || input.stalls > 0;
    assert [] + U32(|s|) == U32(|s|) && os.fd == U32(|s|) + s && input.source == os.fd;
    StringSent(s, os.fd);
  }

  lemma StringSent(s: seq<Byte>, wire: seq<Byte>)
    requires |s| < 0x1_0000_0000 && wire == U32(|s|) + s
    ensures StringThere(wire, 0) <==> |s| <= 65535
    ensures |s| <= 65535 ==> StringAt(wire, 0) == s
  {
    hide U32, FromU32;
    assert wire[0..4] == U32(|s|);
    LengthIs(wire, 0, |s|);
    assert wire[4..] == s && wire[4..4 + |s|] == wire[4..];
  }
}
