/** The growable buffer packets are read from and written to, and the
    fixed-width readers over it. */
module VioBuffer {
  import opened Bits
  import opened Wire
  import opened Events
  import EventCodec

  /** A NUL-terminated string at `at`, as strdup copies it. */
  function StrAt(s: seq<byte>, at: nat): (r: Outcome<seq<byte>>)
    ensures r.Done? ==> at + |r.value| + 1 <= |s|
  {
    if at > |s| then Fail(ReadPastEnd)
    else
      var c := CString(s[at..]);
      if at + |c| >= |s| then Fail(ReadPastEnd) else Done(c)
  }

  lemma StrAtRead(s: seq<byte>, at: nat, c: seq<byte>)
    requires 0 !in c && At(s, at, c + [0])
    ensures StrAt(s, at) == Done(c)
  {
    AtSplit(s, at, c, [0]);
    var rest := s[at + |c|..];
    assert rest[0] == s[at + |c|..at + |c| + 1][0];
    assert s[at..] == c + rest;
    EventCodec.CStringWhole(c, rest);
  }

  /** readBinary asserts that the read succeeds. */
  function TakeAsserted(s: seq<byte>, at: nat, n: nat): Outcome<seq<byte>> {
    if at + n <= |s| then Done(s[at..at + n]) else Fail(AssertFailed)
  }

  function UintAsserted(s: seq<byte>, at: nat, n: nat): Outcome<nat> {
    var b :- TakeAsserted(s, at, n);
    Done(Le(b))
  }

  class Vio {
    var buf: array<byte>
    var len: nat
    var pos: nat

    constructor InitWithBuffer(buf: array<byte>, len: nat)
      requires len == buf.Length
      ensures Valid() && this.buf == buf && this.len == len && pos == 0
    {
      this.buf, this.len, pos := buf, len, 0;
    }

    ghost predicate Valid()
      reads this
    {
      pos <= len == buf.Length
    }

    /** vioBufferRead: nothing moves unless all n bytes are there. */
    method BufferRead(n: nat) returns (ok: bool, data: seq<byte>)
      requires Valid()
      modifies this`pos
      ensures Valid() && ok == (old(pos) + n <= len)
      ensures if ok then data == buf[old(pos)..old(pos) + n] && pos == old(pos) + n
              else data == [] && pos == old(pos)
    {
      if len - pos < n { return false, []; }
      data := buf[pos..pos + n];
      pos := pos + n;
      ok := true;
    }

    /** vioBufferWrite: the bytes are appended; when they do not fit, the buffer
        moves to a larger one. */
    method BufferWrite(data: seq<byte>)
      requires Valid()
      modifies this, buf
      ensures Valid()
      ensures buf[..pos] == old(buf[..pos]) + data
      ensures old(pos) + |data| <= old(len) ==>
                buf == old(buf) && len == old(len) && buf[pos..] == old(buf[pos + |data|..])
      ensures old(pos) + |data| > old(len) ==> fresh(buf) && len == 2 * (old(len) + |data|)
    {
      if len - pos < |data| {
        var bigger := new byte[2 * (len + |data|)](_ => 0);
        forall i | 0 <= i < len {
          bigger[i] := buf[i];
        }
        buf := bigger;
        len := 2 * (len + |data|);
      }
      forall i | 0 <= i < |data| {
        buf[pos + i] := data[i];
      }
      pos := pos + |data|;
    }

    method ReadBinary(n: nat) returns (r: Outcome<seq<byte>>)
      requires Valid()
      modifies this`pos
      ensures Valid() && r == TakeAsserted(buf[..], old(pos), n)
      ensures r.Done? ==> pos == old(pos) + n
      ensures r.Fail? ==> pos == old(pos)
    {
      var ok, data := BufferRead(n);
      r := if ok then Done(data) else Fail(AssertFailed);
    }

    /** readUint8, readUint16, readUint24, readUint32 and readUint64. */
    method ReadUint(n: nat) returns (r: Outcome<nat>)
      requires Valid()
      modifies this`pos
      ensures Valid() && r == UintAsserted(buf[..], old(pos), n)
      ensures r.Done? ==> pos == old(pos) + n
      ensures r.Fail? ==> pos == old(pos)
    {
      var s := ReadBinary(n);
      r := if s.Done? then Done(Le(s.value)) else Fail(s.why);
    }

    /** A read the caller has checked: the assert cannot fire. */
    method GetUint(n: nat) returns (v: nat)
      requires Valid() && pos + n <= len
      modifies this`pos
      ensures Valid() && pos == old(pos) + n
      ensures UintAsserted(buf[..], old(pos), n) == Done(v)
    {
      var r := ReadUint(n);
      v := r.value;
    }

    /** readStr copies up to the NUL and steps over it. */
    method ReadStr() returns (r: Outcome<seq<byte>>)
      requires Valid()
      modifies this`pos
      ensures Valid() && r == StrAt(buf[..], old(pos))
      ensures r.Done? ==> pos == old(pos) + |r.value| + 1
      ensures r.Fail? ==> pos == old(pos)
    {
      r := StrAt(buf[..], pos);
      if r.Done? {
        pos := pos + |r.value| + 1;
      }
    }

    /** readEncodeLength. */
    method ReadEncodeLength() returns (r: Outcome<nat>)
      requires Valid()
      modifies this`pos
      ensures Valid()
      ensures match DecodeInt(buf[..], old(pos))
              case Done(v) => r == Done(v.0) && pos == v.1
              case Fail(w) => r == Fail(AssertFailed)
    {
      hide Le;
      var first := ReadUint(1);
      if first.Fail? || first.value < 251 { return first; }
      if first.value == 251 { return Done(0); }
      if first.value == 252 { r := ReadUint(2); return; }
      if first.value == 253 { r := ReadUint(3); return; }
      if first.value == 254 { r := ReadUint(8); return; }
      r := Done(0);
    }
  }
}
