/** mconnect between the two reads: a whole 4.1 login from the first packet to
    the answer, and what a server makes of it. */
module Login {
  import opened Bits
  import opened Wire
  import opened Protocol
  import opened HandshakePacket
  import S = Sha1Spec
  import opened Scramble

  const LONG_PASSWORD := 1
  const LONG_FLAG := 4
  const CONNECT_WITH_DB := 8
  const PROTOCOL_41 := 512
  const SECURE_CONNECTION := 32768
  const MAX_PACKET_SIZE := 1024 * 1024 * 16

  // ---- Bytes as bit vectors

  function ToBits(s: seq<byte>): (b: seq<bv8>)
    ensures |b| == |s|
  {
    seq(|s|, i requires 0 <= i < |s| => s[i] as bv8)
  }

  function FromBits(b: seq<bv8>): (s: seq<byte>)
    ensures |s| == |b|
  {
    seq(|b|, i requires 0 <= i < |b| => b[i] as byte)
  }

  lemma ByteBits(b: bv8)
    ensures (b as byte) as bv8 == b
  {
  }

  lemma BitsRoundTrip(b: seq<bv8>)
    ensures ToBits(FromBits(b)) == b
  {
    forall i | 0 <= i < |b| ensures ToBits(FromBits(b))[i] == b[i] {
      ByteBits(b[i]);
    }
  }

  // ---- The packet

  /** Whether a capability flag, a power of two, is set. */
  predicate HasFlag(capacity: nat, flag: nat)
    requires flag > 0
  {
    capacity / flag % 2 == 1
  }

  /** The packet mconnect builds, or None when it refuses the server. A short
      greeting leaves the capabilities or the character set unset. */
  function AuthFor(h: Handshake, user: Option<seq<byte>>, passwd: Option<seq<bv8>>, db: Option<seq<byte>>)
    : (r: Outcome<Option<AuthPkt>>)
    requires h.saltlen <= |h.salt|
  {
    if h.caps.None? then Fail(Unset)
    else if !HasFlag(h.caps.value.capacity, PROTOCOL_41) || h.protover != 10 then Done(None)
    else if h.caps.value.Basic? || user.None? then Fail(Unset)
    else
      var withDb := db.Some? && HasFlag(h.caps.value.capacity, CONNECT_WITH_DB);
      var flags := PROTOCOL_41 + SECURE_CONNECTION + LONG_PASSWORD + LONG_FLAG;
      Done(Some(AuthPkt(
        if withDb then flags + CONNECT_WITH_DB else flags, MAX_PACKET_SIZE, h.caps.value.charset % 256, user.value,
        if passwd.Some? then 20 else 0,
        if passwd.Some? then FromBits(Token(ToBits(h.salt[..h.saltlen]), passwd.value)) else Repeat<byte>(0, SALT_SIZE),
        if withDb then db else None)))
  }

  lemma AuthForValid(h: Handshake, user: seq<byte>, passwd: Option<seq<bv8>>, db: Option<seq<byte>>)
    requires h.saltlen <= |h.salt| && 0 !in user && (db.Some? ==> 0 !in db.value)
    ensures var r := AuthFor(h, Some(user), passwd, db);
            r.Done? && r.value.Some? ==>
              && r.value.value.Valid()
              && (r.value.value.database.Some? <==> r.value.value.clientflags / 8 % 2 == 1)
  {
    hide Token, ToBits, FromBits;
  }

  /** cooksalt into the packet's salt, or zeros without a password. */
  method CookedSalt(h: Handshake, passwd: Option<seq<bv8>>) returns (salt: seq<byte>)
    requires h.saltlen <= |h.salt| <= 64 && (passwd.Some? ==> |passwd.value| < TWO32)
    ensures salt == if passwd.Some? then FromBits(Token(ToBits(h.salt[..h.saltlen]), passwd.value))
                    else Repeat<byte>(0, SALT_SIZE)
  {
    hide Token;
    salt := Repeat<byte>(0, SALT_SIZE);
    if passwd.Some? {
      var cooked := new bv8[20];
      Cooksalt(cooked, ToBits(h.salt[..h.saltlen]), passwd.value);
      salt := FromBits(cooked[..]);
    }
  }

  /** The first packet: its header's length many bytes, and its number. A header
      cut short is filled with zeros. */
  function Received(s: seq<byte>): Outcome<(seq<byte>, byte)> {
    var (plen, pnum) := ReadPktHeader((s + Repeat<byte>(0, 4))[..4]);
    var rest := if |s| < 4 then [] else s[4..];
    if |rest| < plen then Fail(CutShort) else Done((rest[..plen], pnum))
  }

  /** The number of the packet after number n, in one byte. */
  function NextNumber(n: byte): byte { (n + 1) % 256 }

  /** What mconnect sends; None when it refuses the server. */
  function Answer(s: seq<byte>, user: Option<seq<byte>>, passwd: Option<seq<bv8>>, db: Option<seq<byte>>)
    : Outcome<Option<seq<byte>>>
    requires (user.Some? ==> 0 !in user.value) && (db.Some? ==> 0 !in db.value)
  {
    var first :- Received(s);
    var h :- ParseHandshake(first.0);
    SaltFits(first.0);
    var auth :- AuthFor(h, user, passwd, db);
    if auth.None? then Done(None)
    else
      AuthForValid(h, user.value, passwd, db);
      Done(Some(PktHeader(CalcAuthPktLen(auth.value), NextNumber(first.1))
                + (AuthBytes(auth.value) + Repeat<byte>(0, PLUGIN_SIZE))))
  }

  /** The packet for a greeting that passes the checks. */
  method BuildAuth(h: Handshake, user: seq<byte>, passwd: Option<seq<bv8>>, db: Option<seq<byte>>)
    returns (auth: AuthPkt)
    requires h.saltlen <= |h.salt| <= 64 && 0 !in user && (db.Some? ==> 0 !in db.value)
    requires h.caps.Some? && h.caps.value.Full? && HasFlag(h.caps.value.capacity, PROTOCOL_41) && h.protover == 10
    requires passwd.Some? ==> |passwd.value| < TWO32
    ensures AuthFor(h, Some(user), passwd, db) == Done(Some(auth)) && auth.Valid()
  {
    hide Token, ToBits, FromBits, HasFlag;
    var caps := h.caps.value;
    var flags := PROTOCOL_41;
    flags := flags + SECURE_CONNECTION;
    flags := flags + LONG_PASSWORD;
    flags := flags + LONG_FLAG;
    var database := None;
    if db.Some? && HasFlag(caps.capacity, CONNECT_WITH_DB) {
      flags := flags + CONNECT_WITH_DB;
      database := db;
    }
    var salt := CookedSalt(h, passwd);
    auth := AuthPkt(flags, MAX_PACKET_SIZE, caps.charset % 256, user,
                    if passwd.Some? then 20 else 0, salt, database);
    AuthForValid(h, user, passwd, db);
  }

  /** mconnect from the first packet's bytes to the bytes it sends. */
  method Mconnect(received: seq<byte>, user: Option<seq<byte>>, passwd: Option<seq<bv8>>, db: Option<seq<byte>>)
    returns (r: Outcome<Option<seq<byte>>>)
    requires (user.Some? ==> 0 !in user.value) && (db.Some? ==> 0 !in db.value)
    requires passwd.Some? ==> |passwd.value| < TWO32
    ensures r == Answer(received, user, passwd, db)
  {
    hide Token, ToBits, FromBits, ParseHandshake, AuthBytes, HasFlag, Received, PktHeader;
    var first := Received(received);
    if first.Fail? { return Fail(first.why); }
    var handshake := ReadHandshakePkt(first.value.0);
    if handshake.Fail? { return Fail(handshake.why); }
    SaltFits(first.value.0);
    var h := handshake.value;
    if h.caps.None? { return Fail(Unset); }
    if !HasFlag(h.caps.value.capacity, PROTOCOL_41) { return Done(None); }
    if h.protover != 10 { return Done(None); }
    if h.caps.value.Basic? || user.None? { return Fail(Unset); }
    var auth := BuildAuth(h, user.value, passwd, db);
    var header := PktHeader(CalcAuthPktLen(auth), NextNumber(first.value.1));
    var sent := SendAuth(auth);
    r := Done(Some(header + sent));
  }

  // ---- Acceptance

  /** A packet of less than 2^24 bytes is received whole. */
  lemma ReceivedFrame(b: seq<byte>, num: byte, rest: seq<byte>)
    requires |b| < 0x100_0000
    ensures Received(PktHeader(|b|, num) + (b + rest)) == Done((b, num))
  {
    hide PktHeader, ReadPktHeader;
    PktHeaderRoundTrip(|b|, num);
    HeaderLong(|b|, num);
    var s := PktHeader(|b|, num) + (b + rest);
    assert (s + Repeat<byte>(0, 4))[..4] == PktHeader(|b|, num);
    assert s[4..] == b + rest && (b + rest)[..|b|] == b;
  }

  lemma HeaderLong(plen: nat, num: byte)
    ensures |PktHeader(plen, num)| == 4
  {
  }

  /** The answer to a 4.1 greeting of protocol version 10, read by a server: the
      flags PROTOCOL_41, SECURE_CONNECTION, LONG_PASSWORD and LONG_FLAG, with
      CONNECT_WITH_DB exactly when a database was asked for and the server takes
      one; a maximum packet of 16 MB; the server's character set; the user; 20
      bytes of salt with a password and none without. */
  lemma LoginFields(g: Greeting, num: byte, rest: seq<byte>, user: seq<byte>, passwd: Option<seq<bv8>>,
                    db: Option<seq<byte>>)
    requires g.Valid() && g.head.protover == 10 && g.capacity / 512 % 2 == 1 && |GreetingBytes(g)| < 0x100_0000
    requires 0 !in user && (db.Some? ==> 0 !in db.value)
    ensures var hello := PktHeader(|GreetingBytes(g)|, num) + (GreetingBytes(g) + rest);
            var r := Answer(hello, Some(user), passwd, db);
            var withDb := db.Some? && g.capacity / 8 % 2 == 1;
            && r.Done? && r.value.Some? && |r.value.value| > 4
            && var sent := r.value.value;
            && (|sent| - 4 < 0x100_0000 ==> ReadPktHeader(sent[..4]) == (|sent| - 4, (num + 1) % 256))
            && var q := ParseAuth(sent[4..]);
            && q.Done? && q.value.user == user && q.value.charset == g.charset
            && q.value.clientflags == (if withDb then 33285 + 8 else 33285)
            && q.value.maxpkt == 0x100_0000
            && q.value.saltlen == (if passwd.Some? then 20 else 0)
            && q.value.database == (if withDb then db else None)
            && q.value.salt == (if passwd.Some? then FromBits(Token(ToBits(g.Salt()), passwd.value))
                                else Repeat<byte>(0, 20))
  {
    hide Token, ParseAuth, ParseHandshake, AuthBytes, GreetingBytes, ToBits, FromBits, PktHeader, ReadPktHeader,
         Received, CalcAuthPktLen;
    ReceivedFrame(GreetingBytes(g), num, rest);
    HandshakeRoundTrip(g);
    var h := ParseHandshake(GreetingBytes(g)).value;
    assert h.salt[..20] == g.Salt();
    AuthForValid(h, user, passwd, db);
    var p := AuthFor(h, Some(user), passwd, db).value.value;
    SentParts(p, (num + 1) % 256);
    AuthRoundTrip(p, Repeat<byte>(0, PLUGIN_SIZE));
    assert p.salt[..20] + Repeat<byte>(0, 0) == p.salt;
    assert p.salt[..0] + Repeat<byte>(0, 20) == Repeat<byte>(0, 20);
  }

  /** From greeting to acceptance: a server holding only h2 = SHA1(SHA1(password))
      recovers SHA1(password) from the answer. */
  lemma LoginAccepted(g: Greeting, num: byte, rest: seq<byte>, user: seq<byte>, passwd: seq<bv8>,
                      db: Option<seq<byte>>, h2: seq<bv8>)
    requires g.Valid() && g.head.protover == 10 && g.capacity / 512 % 2 == 1 && |GreetingBytes(g)| < 0x100_0000
    requires 0 !in user && (db.Some? ==> 0 !in db.value)
    requires h2 == S.Digest(S.Digest(passwd))
    ensures var hello := PktHeader(|GreetingBytes(g)|, num) + (GreetingBytes(g) + rest);
            var r := Answer(hello, Some(user), Some(passwd), db);
            && r.Done? && r.value.Some? && |r.value.value| > 4
            && var q := ParseAuth(r.value.value[4..]);
            && q.Done? && |q.value.salt| == 20
            && var recovered := XorBytes(ToBits(q.value.salt), S.Digest(ToBits(g.Salt()) + h2));
               recovered == S.Digest(passwd) && S.Digest(recovered) == h2
  {
    hide S.Digest, XorBytes, Token, ParseAuth, GreetingBytes, ToBits, FromBits, PktHeader, ReadPktHeader, Answer;
    LoginFields(g, num, rest, user, Some(passwd), db);
    BitsRoundTrip(Token(ToBits(g.Salt()), passwd));
    ServerAccepts(ToBits(g.Salt()), passwd, h2, Token(ToBits(g.Salt()), passwd));
  }

  lemma SentParts(p: AuthPkt, num: byte)
    requires p.Valid()
    ensures var body := AuthBytes(p) + Repeat<byte>(0, PLUGIN_SIZE);
            var sent := PktHeader(CalcAuthPktLen(p), num) + body;
            && |sent| == CalcAuthPktLen(p) + 4 && |sent| > 4 && sent[4..] == body
            && (|sent| - 4 < 0x100_0000 ==> ReadPktHeader(sent[..4]) == (|sent| - 4, num))
  {
    hide AuthBytes, PktHeader, ReadPktHeader, CalcAuthPktLen;
    AuthSize(p);
    HeaderLong(CalcAuthPktLen(p), num);
    PktHeaderRoundTrip(CalcAuthPktLen(p), num);
    var body := AuthBytes(p) + Repeat<byte>(0, PLUGIN_SIZE);
    assert (PktHeader(CalcAuthPktLen(p), num) + body)[..4] == PktHeader(CalcAuthPktLen(p), num);
  }

  /** Which servers are refused: those whose greeting has capabilities but not
      PROTOCOL_41, or another protocol version. Otherwise a greeting without the
      second half, or a missing user, leaves something unset. */
  lemma Refused(h: Handshake, user: Option<seq<byte>>, passwd: Option<seq<bv8>>, db: Option<seq<byte>>)
    requires h.saltlen <= |h.salt|
    ensures var refused := h.caps.Some? && (h.caps.value.capacity / 512 % 2 != 1 || h.protover != 10);
            && (AuthFor(h, user, passwd, db) == Done(None) <==> refused)
            && (AuthFor(h, user, passwd, db) == Fail(Unset)
                <==> h.caps.None? || (!refused && (h.caps.value.Basic? || user.None?)))
  {
    hide Token, ToBits, FromBits;
  }
}
