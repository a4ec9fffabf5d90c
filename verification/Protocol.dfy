/** Packets of the client/server protocol: headers, the handshake read and the
    authentication packet written. */
module Protocol {
  import opened Bits
  import opened Wire
  import opened VioBuffer

  const SALT_SIZE := 20
  const PLUGIN_SIZE := 22   // sizeof("mysql_native_password")

  // ---- Packet headers

  /** writeHeader: four bytes of the length, the last overwritten. */
  function PktHeader(plen: nat, pnum: byte): seq<byte> {
    Enc(plen, 4)[3 := pnum]
  }

  /** readPktHeader. */
  function ReadPktHeader(s: seq<byte>): (nat, byte)
    requires |s| == 4
  {
    (Le(s[..3]), s[3])
  }

  /** The header comes back exactly when the length fits its three bytes. */
  lemma PktHeaderRoundTrip(plen: nat, pnum: byte)
    ensures ReadPktHeader(PktHeader(plen, pnum)) == (plen, pnum) <==> plen < 0x100_0000
  {
    EncTake(plen);
    LeBound(Enc(plen, 3));
    PowValues();
    if plen < 0x100_0000 { LeEnc(plen, 3); }
    assert PktHeader(plen, pnum)[..3] == Enc(plen, 4)[..3];
  }

  lemma EncTake(n: nat)
    ensures Enc(n, 4)[..3] == Enc(n, 3)
  {
    var a, b, c := n / 256, n / 256 / 256, n / 256 / 256 / 256;
    assert Enc(n, 4) == [n % 256] + Enc(a, 3);
    assert Enc(a, 3) == [a % 256] + Enc(b, 2);
    assert Enc(b, 2) == [b % 256] + Enc(c, 1);
    assert Enc(n, 3) == [n % 256] + Enc(a, 2);
    assert Enc(a, 2) == [a % 256] + Enc(b, 1);
    assert Enc(b, 1) == [b % 256];
  }

  /** The header on the wire: three bytes of the length, low byte first, and the
      number. */
  lemma PktHeaderBytes(plen: nat, pnum: byte)
    ensures PktHeader(plen, pnum) == [plen % 256, plen / 256 % 256, plen / 256 / 256 % 256, pnum]
  {
    var a, b, c := plen / 256, plen / 256 / 256, plen / 256 / 256 / 256;
    assert Enc(plen, 4) == [plen % 256] + Enc(a, 3);
    assert Enc(a, 3) == [a % 256] + Enc(b, 2);
    assert Enc(b, 2) == [b % 256] + Enc(c, 1);
    assert Enc(c, 1) == [c % 256] + Enc(c / 256, 0);
  }

  // ---- Authentication packet

  datatype AuthPkt = AuthPkt(
    clientflags: nat, maxpkt: nat, charset: byte,
    user: seq<byte>, saltlen: nat, salt: seq<byte>, database: Option<seq<byte>>)
  {
    /** What the C types and the caller guarantee. */
    predicate Valid() {
      && clientflags < TWO32 && maxpkt < TWO32
      && 0 !in user && |salt| == SALT_SIZE && saltlen <= SALT_SIZE
      && (database.Some? ==> 0 !in database.value)
    }
  }

  function CalcAuthPktLen(p: AuthPkt): nat {
    4 + 4 + 1 + 23 + |p.user| + 1 + 1 + PLUGIN_SIZE
    + p.saltlen + if p.database.Some? then |p.database.value| + 1 else 0
  }

  function DatabaseBytes(p: AuthPkt): seq<byte> {
    if p.database.Some? then p.database.value + [0] else []
  }

  /** The packet's fields on the wire. */
  function AuthBytes(p: AuthPkt): seq<byte>
    requires p.Valid()
  {
    Enc(p.clientflags, 4) + (Enc(p.maxpkt, 4) + ([p.charset] + (Repeat<byte>(0, 23) + ((p.user + [0])
    + ([p.saltlen] + (p.salt[..p.saltlen] + DatabaseBytes(p)))))))
  }

  lemma AuthSize(p: AuthPkt)
    requires p.Valid()
    ensures CalcAuthPktLen(p) == |AuthBytes(p)| + PLUGIN_SIZE
  {
  }

  /** `done` is written, the rest of the buffer is still zero, and the vio still
      writes to the caller's array. */
  ghost predicate Writing(io: Vio, raw: array<byte>, done: seq<byte>)
    reads io, raw
  {
    io.buf == raw && io.Valid() && io.pos == |done| <= io.len && raw[..] == done + Repeat<byte>(0, io.len - |done|)
  }

  method Put(io: Vio, raw: array<byte>, data: seq<byte>, ghost done: seq<byte>)
    requires Writing(io, raw, done) && |done| + |data| <= io.len
    modifies io, raw
    ensures Writing(io, raw, done + data) && io.len == old(io.len)
  {
    assert raw[..io.pos] == done;
    assert raw[io.pos + |data|..] == Repeat<byte>(0, io.len - |done| - |data|);
    io.BufferWrite(data);
    assert raw[..] == raw[..io.pos] + raw[io.pos..];
  }

  /** The fixed-size fields in front of the names. */
  function FixedBytes(p: AuthPkt): seq<byte> {
    Enc(p.clientflags, 4) + Enc(p.maxpkt, 4) + [p.charset] + Repeat<byte>(0, 23)
  }

  function NameBytes(p: AuthPkt): seq<byte>
    requires p.Valid()
  {
    (p.user + [0]) + [p.saltlen] + p.salt[..p.saltlen] + DatabaseBytes(p)
  }

  lemma Regroup(p: AuthPkt)
    requires p.Valid()
    ensures AuthBytes(p) == FixedBytes(p) + NameBytes(p)
    ensures |FixedBytes(p)| == 32
  {
    hide Enc, DatabaseBytes;
  }

  method PutFixed(io: Vio, raw: array<byte>, p: AuthPkt)
    requires Writing(io, raw, []) && io.len >= 32
    modifies io, raw
    ensures Writing(io, raw, FixedBytes(p)) && io.len == old(io.len)
  {
    hide Enc, Writing, Repeat;
    Put(io, raw, Enc(p.clientflags, 4), []);
    assert [] + Enc(p.clientflags, 4) == Enc(p.clientflags, 4);
    Put(io, raw, Enc(p.maxpkt, 4), Enc(p.clientflags, 4));
    Put(io, raw, [p.charset], Enc(p.clientflags, 4) + Enc(p.maxpkt, 4));
    Put(io, raw, Repeat<byte>(0, 23), Enc(p.clientflags, 4) + Enc(p.maxpkt, 4) + [p.charset]);
  }

  method PutNames(io: Vio, raw: array<byte>, p: AuthPkt, ghost done: seq<byte>)
    requires p.Valid() && Writing(io, raw, done) && |done| + |NameBytes(p)| <= io.len
    modifies io, raw
    ensures Writing(io, raw, done + NameBytes(p)) && io.len == old(io.len)
  {
    hide Writing;
    ghost var w := done + (p.user + [0]);
    Put(io, raw, p.user + [0], done);
    Put(io, raw, [p.saltlen], w);
    w := w + [p.saltlen];
    if p.saltlen != 0 {
      Put(io, raw, p.salt[..p.saltlen], w);
    } else {
      assert w + p.salt[..p.saltlen] == w;
    }
    w := w + p.salt[..p.saltlen];
    if p.database.Some? {
      Put(io, raw, p.database.value + [0], w);
    } else {
      assert w + DatabaseBytes(p) == w;
    }
    assert w + DatabaseBytes(p) == done + NameBytes(p);
  }

  /** writeAuthPkt: what goes to the socket is the array the caller allocated,
      so it is right only because no write outgrows it. */
  method WriteAuthPkt(p: AuthPkt, plen: nat) returns (sent: seq<byte>)
    requires p.Valid() && |AuthBytes(p)| <= plen
    ensures sent == AuthBytes(p) + Repeat<byte>(0, plen - |AuthBytes(p)|)
  {
    hide Writing, Repeat, AuthBytes, FixedBytes, NameBytes;
    var buf := new byte[plen](_ => 0);
    var io := new Vio.InitWithBuffer(buf, plen);
    StartWriting(io, buf);
    Regroup(p);
    PutFixed(io, buf, p);
    PutNames(io, buf, p, FixedBytes(p));
    StillRaw(io, buf, AuthBytes(p));
    sent := buf[..];
  }

  lemma StartWriting(io: Vio, raw: array<byte>)
    requires io.Valid() && io.buf == raw && io.pos == 0 && forall i :: 0 <= i < raw.Length ==> raw[i] == 0
    ensures Writing(io, raw, [])
  {
  }

  lemma StillRaw(io: Vio, raw: array<byte>, done: seq<byte>)
    requires Writing(io, raw, done)
    ensures raw[..] == done + Repeat<byte>(0, raw.Length - |done|)
  {
  }

  /** mconnect's call: the packet with room for the plugin name, which is never
      written. */
  method SendAuth(p: AuthPkt) returns (sent: seq<byte>)
    requires p.Valid()
    ensures sent == AuthBytes(p) + Repeat<byte>(0, PLUGIN_SIZE)
  {
    AuthSize(p);
    sent := WriteAuthPkt(p, CalcAuthPktLen(p));
  }

  // ---- What a server reads out of the packet

  /** The 4.1 authentication packet as a server parses it; the database is
      present when the CONNECT_WITH_DB flag (8) is set. */
  function ParseAuth(s: seq<byte>): Outcome<AuthPkt> {
    var flags :- TakeUint(s, 0, 4);
    var maxpkt :- TakeUint(s, 4, 4);
    var charset :- Take(s, 8, 1);
    var user :- StrAt(s, 32);
    var at := 32 + |user| + 1;
    var saltlen :- TakeUint(s, at, 1);
    if saltlen > SALT_SIZE then Fail(AssertFailed)
    else
      var salt :- Take(s, at + 1, saltlen);
      if flags / 8 % 2 == 1 then
        var db :- StrAt(s, at + 1 + saltlen);
        Done(AuthPkt(flags, maxpkt, charset[0], user, saltlen, salt + Repeat<byte>(0, SALT_SIZE - saltlen), Some(db)))
      else
        Done(AuthPkt(flags, maxpkt, charset[0], user, saltlen, salt + Repeat<byte>(0, SALT_SIZE - saltlen), None))
  }

  lemma AuthParts(s: seq<byte>, p: AuthPkt)
    requires p.Valid() && At(s, 0, AuthBytes(p))
    ensures TakeUint(s, 0, 4) == Done(p.clientflags)
    ensures TakeUint(s, 4, 4) == Done(p.maxpkt)
    ensures Take(s, 8, 1) == Done([p.charset])
    ensures StrAt(s, 32) == Done(p.user)
    ensures TakeUint(s, 33 + |p.user|, 1) == Done(p.saltlen)
    ensures Take(s, 34 + |p.user|, p.saltlen) == Done(p.salt[..p.saltlen])
    ensures At(s, 34 + |p.user| + p.saltlen, DatabaseBytes(p))
  {
    hide At, Take, TakeUint, StrAt, Enc, DatabaseBytes, Repeat;
    PowValues();
    var s7 := p.salt[..p.saltlen] + DatabaseBytes(p);
    var s6 := [p.saltlen] + s7;
    var s5 := (p.user + [0]) + s6;
    var s4 := Repeat<byte>(0, 23) + s5;
    var s3 := [p.charset] + s4;
    var s2 := Enc(p.maxpkt, 4) + s3;
    AtSplit(s, 0, Enc(p.clientflags, 4), s2);
    AtSplit(s, 4, Enc(p.maxpkt, 4), s3);
    AtSplit(s, 8, [p.charset], s4);
    AtSplit(s, 9, Repeat<byte>(0, 23), s5);
    AtSplit(s, 32, p.user + [0], s6);
    var at := 33 + |p.user|;
    AtSplit(s, at, [p.saltlen], s7);
    AtSplit(s, at + 1, p.salt[..p.saltlen], DatabaseBytes(p));
    TakeUintAt(s, 0, p.clientflags, 4);
    TakeUintAt(s, 4, p.maxpkt, 4);
    TakeAt(s, 8, [p.charset]);
    StrAtRead(s, 32, p.user);
    OneByte(p.saltlen);
    TakeUintAt(s, at, p.saltlen, 1);
    TakeAt(s, at + 1, p.salt[..p.saltlen]);
  }

  /** Every byte of the packet by its offset: flags, maximum packet size,
      character set, 23 zeros, the user and its NUL, the salt length, the salt,
      and the database, if any, and its NUL. */
  lemma AuthLayout(p: AuthPkt)
    requires p.Valid()
    ensures var b, u := AuthBytes(p), |p.user|; var n := p.saltlen;
            && |b| >= 34 + u + n
            && b[..4] == Enc(p.clientflags, 4) && b[4..8] == Enc(p.maxpkt, 4) && b[8] == p.charset
            && (forall i :: 9 <= i < 32 ==> b[i] == 0)
            && b[32..32 + u] == p.user && b[32 + u] == 0
            && b[33 + u] == n && b[34 + u..34 + u + n] == p.salt[..n]
            && b[34 + u + n..] == (if p.database.Some? then p.database.value + [0] else [])
  {
    Regroup(p);
    var head := Enc(p.clientflags, 4) + Enc(p.maxpkt, 4) + [p.charset];
    assert |head| == 9;
    hide Enc, AuthBytes, DatabaseBytes;
    var b, f, t := AuthBytes(p), FixedBytes(p), NameBytes(p);
    assert b[..4] == f[..4] == Enc(p.clientflags, 4);
    assert b[4..8] == f[4..8] == Enc(p.maxpkt, 4);
    forall i | 9 <= i < 32 ensures b[i] == 0 {
      assert b[i] == f[i] == Repeat<byte>(0, 23)[i - 9];
    }
    NameLayout(p);
    assert forall i, k :: 0 <= i <= k <= |t| ==> b[32 + i..32 + k] == t[i..k];
    assert b[32 + (|p.user| + 2 + p.saltlen)..] == t[|p.user| + 2 + p.saltlen..];
  }

  lemma NameLayout(p: AuthPkt)
    requires p.Valid()
    ensures var t, u := NameBytes(p), |p.user|; var n := p.saltlen;
            && |t| >= u + 2 + n
            && t[0..u] == p.user && t[u] == 0 && t[u + 1] == n && t[u + 2..u + 2 + n] == p.salt[..n]
            && t[u + 2 + n..] == (if p.database.Some? then p.database.value + [0] else [])
  {
  }

  /** The sent bytes parse back to the packet's fields, the unused part of the
      salt array aside. */
  lemma AuthRoundTrip(p: AuthPkt, rest: seq<byte>)
    requires p.Valid() && (p.database.Some? <==> p.clientflags / 8 % 2 == 1)
    ensures ParseAuth(AuthBytes(p) + rest)
         == Done(p.(salt := p.salt[..p.saltlen] + Repeat<byte>(0, SALT_SIZE - p.saltlen)))
  {
    hide Take, TakeUint, StrAt, AuthBytes, Repeat;
    var s := AuthBytes(p) + rest;
    assert s[0..|AuthBytes(p)|] == AuthBytes(p);
    AuthParts(s, p);
    if p.database.Some? {
      StrAtRead(s, 34 + |p.user| + p.saltlen, p.database.value);
    }
  }
}
