/** The handshake packet a server greets with. */
module HandshakePacket {
  import opened Bits
  import opened Wire
  import opened VioBuffer

  datatype Caps =
    | Basic(capacity: nat)
    | Full(capacity: nat, charset: nat, status: nat, plugin: Option<seq<byte>>)

  datatype Handshake = Handshake(
    protover: nat, mysqlver: seq<byte>, threadid: nat,
    salt: seq<byte>, saltlen: nat, caps: Option<Caps>)

  /** Offset of the capability flags. */
  function CapsAt(ver: seq<byte>): nat { |ver| + 15 }

  function ParseCaps(s: seq<byte>, b: nat): Outcome<(seq<byte>, Caps)> {
    var low :- UintAsserted(s, b, 2);
    if b + 18 > |s| then Done(([], Basic(low)))
    else
      var charset :- UintAsserted(s, b + 2, 1);
      var status :- UintAsserted(s, b + 3, 2);
      var high :- UintAsserted(s, b + 5, 2);
      var saltlen :- UintAsserted(s, b + 7, 1);
      var filler :- TakeAsserted(s, b + 8, 10);
      var salt2 :- TakeAsserted(s, b + 18, 13);
      if b + 31 < |s| then
        var plugin :- StrAt(s, b + 31);
        Done((salt2, Full(low + 0x1_0000 * high, charset, status, Some(plugin))))
      else Done((salt2, Full(low + 0x1_0000 * high, charset, status, None)))
  }

  /** readHandshakePkt on the bytes received. The 8-byte salt grows by 13 bytes
      of which the last is a terminator. */
  function ParseHandshake(s: seq<byte>): Outcome<Handshake> {
    var protover :- UintAsserted(s, 0, 1);
    var ver :- StrAt(s, 1);
    var threadid :- UintAsserted(s, |ver| + 2, 4);
    var salt1 :- TakeAsserted(s, |ver| + 6, 9);
    var b := CapsAt(ver);
    if b >= |s| then Done(Handshake(protover, ver, threadid, salt1[..8], 8, None))
    else
      var c :- ParseCaps(s, b);
      var saltlen := if c.1.Full? then 20 else 8;
      Done(Handshake(protover, ver, threadid, salt1[..8] + c.0, saltlen, Some(c.1)))
  }

  lemma CapsSalt(s: seq<byte>, b: nat)
    ensures var c := ParseCaps(s, b); c.Done? ==> |c.value.0| == if c.value.1.Full? then 13 else 0
  {
    hide Le, StrAt;
  }

  /** The salt is as long as announced and fits its 64-byte array. */
  lemma SaltFits(s: seq<byte>)
    ensures ParseHandshake(s).Done? ==>
              ParseHandshake(s).value.saltlen <= |ParseHandshake(s).value.salt| <= 64
  {
    hide Le, StrAt, ParseCaps;
    if StrAt(s, 1).Done? { CapsSalt(s, CapsAt(StrAt(s, 1).value)); }
  }

  method ReadCaps(io: Vio) returns (r: Outcome<(seq<byte>, Caps)>)
    requires io.Valid()
    modifies io`pos
    ensures io.Valid() && r == ParseCaps(io.buf[..], old(io.pos))
  {
    hide StrAt, Le;
    var low := io.ReadUint(2);
    if low.Fail? { return Fail(low.why); }
    if io.pos + 16 > io.len { return Done(([], Basic(low.value))); }
    var charset := io.GetUint(1);
    var status := io.GetUint(2);
    var high := io.GetUint(2);
    var saltlen := io.GetUint(1);
    var filler := io.ReadBinary(10);
    var salt2 := io.ReadBinary(13);
    if salt2.Fail? { return Fail(salt2.why); }
    var capacity := low.value + 0x1_0000 * high;
    if io.pos < io.len {
      var plugin := io.ReadStr();
      if plugin.Fail? { return Fail(plugin.why); }
      return Done((salt2.value, Full(capacity, charset, status, Some(plugin.value))));
    }
    r := Done((salt2.value, Full(capacity, charset, status, None)));
  }

  method ReadHandshakePkt(received: seq<byte>) returns (r: Outcome<Handshake>)
    ensures r == ParseHandshake(received)
  {
    hide StrAt, Le, ParseCaps;
    var buf := new byte[|received|](i requires 0 <= i < |received| => received[i]);
    assert buf[..] == received;
    var io := new Vio.InitWithBuffer(buf, |received|);
    var protover := io.ReadUint(1);
    if protover.Fail? { return Fail(protover.why); }
    var ver := io.ReadStr();
    if ver.Fail? { return Fail(ver.why); }
    var threadid := io.ReadUint(4);
    if threadid.Fail? { return Fail(threadid.why); }
    var salt1 := io.ReadBinary(9);
    if salt1.Fail? { return Fail(salt1.why); }
    var salt := salt1.value[..8];
    if io.pos >= io.len {
      return Done(Handshake(protover.value, ver.value, threadid.value, salt, 8, None));
    }
    var c := ReadCaps(io);
    if c.Fail? { return Fail(c.why); }
    salt := salt + c.value.0;
    r := Done(Handshake(protover.value, ver.value, threadid.value, salt,
                        if c.value.1.Full? then 20 else 8, Some(c.value.1)));
  }

  // ---- Round trip

  /** What every greeting begins with; last is the byte behind the salt. */
  datatype Head = Head(protover: byte, version: seq<byte>, threadid: nat, salt1: seq<byte>, last: byte)
  {
    predicate Valid() { 0 !in version && threadid < TWO32 && |salt1| == 8 }
  }

  /** A 4.1 server's greeting with 8 + 12 bytes of salt. The filler, the bytes
      behind the two parts of the salt and what follows the plugin name may be
      anything. */
  datatype Greeting = Greeting(
    head: Head, salt2: seq<byte>, last2: byte, capacity: nat, charset: byte, status: nat, authlen: byte,
    filler: seq<byte>, plugin: Option<seq<byte>>, extra: seq<byte>)
  {
    predicate Valid() {
      && head.Valid() && |salt2| == 12 && |filler| == 10
      && capacity < TWO32 && status < 0x1_0000
      && (plugin.Some? ==> 0 !in plugin.value)
    }

    function Salt(): seq<byte> { head.salt1 + salt2 }
  }

  function PluginBytes(g: Greeting): seq<byte> {
    if g.plugin.Some? then (g.plugin.value + [0]) + g.extra else []
  }

  function CapsBytes(g: Greeting): seq<byte> {
    Enc(g.capacity % 0x1_0000, 2) + ([g.charset] + (Enc(g.status, 2) + (Enc(g.capacity / 0x1_0000, 2)
    + ([g.authlen] + (g.filler + ((g.salt2 + [g.last2]) + PluginBytes(g)))))))
  }

  function HeadBytes(h: Head, tail: seq<byte>): seq<byte> {
    [h.protover] + ((h.version + [0]) + (Enc(h.threadid, 4) + ((h.salt1 + [h.last]) + tail)))
  }

  function GreetingBytes(g: Greeting): seq<byte> { HeadBytes(g.head, CapsBytes(g)) }

  lemma AssertedAt(s: seq<byte>, at: nat, b: seq<byte>)
    requires At(s, at, b)
    ensures TakeAsserted(s, at, |b|) == Done(b)
  {
  }

  lemma UintAssertedAt(s: seq<byte>, at: nat, n: nat, k: nat)
    requires At(s, at, Enc(n, k)) && n < Pow256(k)
    ensures UintAsserted(s, at, k) == Done(n)
  {
    AssertedAt(s, at, Enc(n, k));
    LeEnc(n, k);
  }

  lemma CapsRoundTrip(s: seq<byte>, b: nat, g: Greeting)
    requires g.Valid() && At(s, b, CapsBytes(g)) && |s| == b + |CapsBytes(g)|
    ensures ParseCaps(s, b) == Done((g.salt2 + [g.last2], Full(g.capacity, g.charset, g.status, g.plugin)))
  {
    hide At, UintAsserted, TakeAsserted, StrAt, Enc, Repeat;
    PowValues();
    var s7 := (g.salt2 + [g.last2]) + PluginBytes(g);
    var s6 := g.filler + s7;
    var s5 := [g.authlen] + s6;
    var s4 := Enc(g.capacity / 0x1_0000, 2) + s5;
    var s3 := Enc(g.status, 2) + s4;
    var s2 := [g.charset] + s3;
    AtSplit(s, b, Enc(g.capacity % 0x1_0000, 2), s2);
    AtSplit(s, b + 2, [g.charset], s3);
    AtSplit(s, b + 3, Enc(g.status, 2), s4);
    AtSplit(s, b + 5, Enc(g.capacity / 0x1_0000, 2), s5);
    AtSplit(s, b + 7, [g.authlen], s6);
    AtSplit(s, b + 8, g.filler, s7);
    AtSplit(s, b + 18, g.salt2 + [g.last2], PluginBytes(g));
    UintAssertedAt(s, b, g.capacity % 0x1_0000, 2);
    OneByte(g.charset);
    UintAssertedAt(s, b + 2, g.charset, 1);
    UintAssertedAt(s, b + 3, g.status, 2);
    UintAssertedAt(s, b + 5, g.capacity / 0x1_0000, 2);
    OneByte(g.authlen);
    UintAssertedAt(s, b + 7, g.authlen, 1);
    AssertedAt(s, b + 8, g.filler);
    AssertedAt(s, b + 18, g.salt2 + [g.last2]);
    if g.plugin.Some? {
      AtSplit(s, b + 31, g.plugin.value + [0], g.extra);
      StrAtRead(s, b + 31, g.plugin.value);
    }
  }

  /** Every field of the greeting comes back; the salt is its two parts. */
  lemma HandshakeRoundTrip(g: Greeting)
    requires g.Valid()
    ensures ParseHandshake(GreetingBytes(g))
         == Done(Handshake(g.head.protover, g.head.version, g.head.threadid, g.Salt() + [g.last2], 20,
                           Some(Full(g.capacity, g.charset, g.status, g.plugin))))
  {
    hide UintAsserted, TakeAsserted, StrAt, CapsBytes, ParseCaps, At, HeadBytes;
    HeadParts(g.head, CapsBytes(g));
    assert (g.head.salt1 + [g.head.last])[..8] == g.head.salt1;
    assert g.head.salt1 + (g.salt2 + [g.last2]) == g.Salt() + [g.last2];
    CapsNotEmpty(g);
    CapsRoundTrip(GreetingBytes(g), |g.head.version| + 15, g);
  }

  /** A greeting that ends behind the salt, or with the low half of the
      capabilities and up to 15 bytes more, which are not read: 8 bytes of salt,
      and no character set, status or plugin. */
  lemma ShortGreeting(h: Head, tail: seq<byte>)
    requires h.Valid() && (tail == [] || 2 <= |tail| <= 17)
    ensures var low: nat := if tail == [] then 0 else tail[0] as nat + 256 * (tail[1] as nat);
            ParseHandshake(HeadBytes(h, tail))
            == Done(Handshake(h.protover, h.version, h.threadid, h.salt1, 8,
                              if tail == [] then None else Some(Basic(low))))
  {
    hide UintAsserted, TakeAsserted, StrAt, At, HeadBytes;
    HeadParts(h, tail);
    var s, b := HeadBytes(h, tail), |h.version| + 15;
    assert (h.salt1 + [h.last])[..8] == h.salt1;
    if tail != [] {
      LowHalf(s, b, tail);
      assert h.salt1 + [] == h.salt1;
    }
  }

  lemma LowHalf(s: seq<byte>, b: nat, tail: seq<byte>)
    requires At(s, b, tail) && |tail| >= 2
    ensures UintAsserted(s, b, 2) == Done(tail[0] as nat + 256 * (tail[1] as nat))
  {
    assert s[b..b + 2] == s[b..b + |tail|][..2] == [tail[0], tail[1]];
    LeTwo(tail[0], tail[1]);
  }

  lemma LeTwo(x: byte, y: byte)
    ensures Le([x, y]) == x + 256 * y
  {
    assert [x, y][1..] == [y];
    assert [y][1..] == [];
    assert Le([y]) == y;
  }

  lemma HeadParts(h: Head, tail: seq<byte>)
    requires h.Valid()
    ensures var s := HeadBytes(h, tail); var v := |h.version|;
            && UintAsserted(s, 0, 1) == Done(h.protover)
            && StrAt(s, 1) == Done(h.version)
            && UintAsserted(s, v + 2, 4) == Done(h.threadid)
            && TakeAsserted(s, v + 6, 9) == Done(h.salt1 + [h.last])
            && At(s, v + 15, tail) && |s| == v + 15 + |tail|
  {
    hide UintAsserted, TakeAsserted, StrAt, Enc, At, HeadBytes;
    PowValues();
    HeadPlaces(h, tail);
    var s, v := HeadBytes(h, tail), |h.version|;
    OneByte(h.protover);
    UintAssertedAt(s, 0, h.protover, 1);
    StrAtRead(s, 1, h.version);
    UintAssertedAt(s, v + 2, h.threadid, 4);
    AssertedAt(s, v + 6, h.salt1 + [h.last]);
  }

  lemma HeadPlaces(h: Head, tail: seq<byte>)
    requires h.Valid()
    ensures var s := HeadBytes(h, tail); var v := |h.version|;
            && At(s, 0, [h.protover]) && At(s, 1, h.version + [0]) && At(s, v + 2, Enc(h.threadid, 4))
            && At(s, v + 6, h.salt1 + [h.last]) && At(s, v + 15, tail) && |s| == v + 15 + |tail|
  {
    hide Enc, At;
    var s := HeadBytes(h, tail);
    WholeAt(s);
    var s3 := (h.salt1 + [h.last]) + tail;
    var s2 := Enc(h.threadid, 4) + s3;
    var v := |h.version|;
    AtSplit(s, 0, [h.protover], (h.version + [0]) + s2);
    AtSplit(s, 1, h.version + [0], s2);
    AtSplit(s, v + 2, Enc(h.threadid, 4), s3);
    AtSplit(s, v + 6, h.salt1 + [h.last], tail);
  }

  lemma CapsNotEmpty(g: Greeting)
    ensures |CapsBytes(g)| > 0
  {
  }

  lemma WholeAt(s: seq<byte>)
    ensures At(s, 0, s)
  {
  }

  /** The guard before the second half of the salt asks for 16 more bytes where
      29 are read, and none asks for the second byte of the capabilities. */
  lemma CapsAbort(s: seq<byte>, b: nat)
    requires b < |s|
    ensures ParseCaps(s, b) == Fail(AssertFailed) <==> |s| == b + 1 || b + 18 <= |s| < b + 31
  {
    hide Le;
  }

  /** When readHandshakePkt aborts the process, for every packet: it is empty,
      or ends before the capabilities, or one byte into them, or between the
      guard and the end of the salt. A version without its NUL is read past the
      end instead. */
  lemma HandshakeAborts(s: seq<byte>)
    ensures ParseHandshake(s) == Fail(AssertFailed)
            <==> s == [] || (StrAt(s, 1).Done?
                             && var b := CapsAt(StrAt(s, 1).value);
                                |s| < b || |s| == b + 1 || b + 18 <= |s| < b + 31)
  {
    hide Le, ParseCaps, StrAt;
    if s != [] && StrAt(s, 1).Done? {
      var b := CapsAt(StrAt(s, 1).value);
      if b < |s| { CapsAbort(s, b); }
    }
    StrFault(s);
  }

  lemma StrFault(s: seq<byte>)
    ensures StrAt(s, 1) != Fail(AssertFailed)
  {
  }
}
