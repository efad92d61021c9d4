/** Key options on the wire, ssh-agent/auth-options.c: the printer and the parser of
    struct sshauthopt over the types of section 5 of RFC 4251.
  */
module AuthOptions {
  import opened SshBuf
  import opened Wrappers

  datatype Flags = Flags(
    permitPortForwarding: int, permitAgentForwarding: int, permitX11Forwarding: int, permitPty: int,
    permitUserRc: int, restricted: int, certAuthority: int, noRequireUserPresence: int, requireVerify: int)

  datatype Options = Options(
    flags: Flags, validBefore: nat, forceTunDevice: int,
    certPrincipals: Option<Str>, forceCommand: Option<Str>,
    requiredFromHostCert: Option<Str>, requiredFromHostKeys: Option<Str>,
    env: seq<Str>, permitOpen: seq<Str>, permitListen: seq<Str>)

  /** What the C types can hold: int, u_int64_t. */
  predicate Representable(o: Options) {
    o.validBefore < 0x1_0000_0000_0000_0000 && -INT_MAX - 1 <= o.forceTunDevice <= INT_MAX
  }

  // -------------------------------------------------------------------- printing

  /** An int passed as u_char. */
  function U8(x: int): Byte {
    x % 256
  }

  function PutFlags(f: Flags): seq<Byte> {
    [U8(f.permitPortForwarding), U8(f.permitAgentForwarding), U8(f.permitX11Forwarding), U8(f.permitPty),
     U8(f.permitUserRc), U8(f.restricted), U8(f.certAuthority), U8(f.noRequireUserPresence), U8(f.requireVerify)]
  }

  /** The tunnel device: -1 stands for unset. */
  function PutTun(tun: int): seq<Byte> {
    BigEndian(if tun == -1 then 1 else 0, 1) + BigEndian(if tun < 0 then 0 else tun, 4)
  }

  /** serialise_nullable_string. */
  function PutNullable(s: Option<Str>): seq<Byte> {
    BigEndian(if s.None? then 1 else 0, 1) + PutString(if s.None? then [] else s.value)
  }

  function PutAll(a: seq<Str>): seq<Byte> {
    if a == [] then [] else PutString(a[0]) + PutAll(a[1..])
  }

  /** serialise_array: the number of strings, and all of them inside one string. */
  function PutArray(a: seq<Str>): seq<Byte> {
    BigEndian(|a|, 4) + PutString(PutAll(a))
  }

  function PutNumbers(o: Options): seq<Byte> {
    BigEndian(o.validBefore, 8) + PutTun(o.forceTunDevice)
  }

  function PutStrings(o: Options): seq<Byte> {
    PutNullable(o.certPrincipals) + PutNullable(o.forceCommand)
    + PutNullable(o.requiredFromHostCert) + PutNullable(o.requiredFromHostKeys)
  }

  function PutArrays(o: Options): seq<Byte> {
    PutArray(o.env) + PutArray(o.permitOpen) + PutArray(o.permitListen)
  }

  function Encode(o: Options): seq<Byte> {
    PutFlags(o.flags) + PutNumbers(o) + PutStrings(o) + PutArrays(o)
  }

  const YES: Str := [121, 101, 115]
  const TRUE: Str := [116, 114, 117, 101]

  /** What an untrusted receiver gets to see, from the flags and numbers alone. */
  function Redacted(flags: Flags, validBefore: nat, forceTunDevice: int): Options {
    Options(flags, validBefore, forceTunDevice, Some(YES), Some(TRUE), None, None, [], [], [])
  }

  function Sent(o: Options, untrusted: bool): Options {
    if untrusted then Redacted(o.flags, o.validBefore, o.forceTunDevice) else o
  }

  // --------------------------------------------------------------------- parsing

  function GetFlags(b: seq<Byte>): Result<(Flags, seq<Byte>)> {
    if |b| < 9 then Err(Incomplete)
    else Ok((Flags(b[0], b[1], b[2], b[3], b[4], b[5], b[6], b[7], b[8]), b[9..]))
  }

  /** A u_int stored in an int. */
  function ToInt(x: nat): int {
    if x > INT_MAX then x - 0x1_0000_0000 else x
  }

  function GetTun(b: seq<Byte>): Result<(int, seq<Byte>)> {
    var unset :- GetNumber(b, 1);
    var tun :- GetNumber(unset.1, 4);
    Ok((if unset.0 != 0 then -1 else ToInt(tun.0), tun.1))
  }

  /** deserialise_nullable_string. */
  function GetNullable(b: seq<Byte>): Result<(Option<Str>, seq<Byte>)> {
    var isNull :- GetNumber(b, 1);
    var s :- GetCString(isNull.1);
    Ok((if isNull.0 != 0 then None else Some(s.0), s.1))
  }

  function GetAll(b: seq<Byte>, n: nat): Result<seq<Str>>
    decreases n
  {
    if n == 0 then Ok([])
    else
      var s :- GetCString(b);
      var rest :- GetAll(s.1, n - 1);
      Ok([s.0] + rest)
  }

  /** deserialise_array: bytes left over inside the string are ignored. */
  function GetArray(b: seq<Byte>): Result<(seq<Str>, seq<Byte>)> {
    var n :- GetNumber(b, 4);
    var s :- GetString(n.1);
    if n.0 > INT_MAX then Err(InvalidFormat)
    else
      var a :- GetAll(s.0, n.0);
      Ok((a, s.1))
  }

  function GetNumbers(b: seq<Byte>): Result<((nat, int), seq<Byte>)> {
    var before :- GetNumber(b, 8);
    var tun :- GetTun(before.1);
    Ok(((before.0, tun.0), tun.1))
  }

  datatype Four = Four(certPrincipals: Option<Str>, forceCommand: Option<Str>, fromCert: Option<Str>, fromKeys: Option<Str>)

  function GetStrings(b: seq<Byte>): Result<(Four, seq<Byte>)> {
    var principals :- GetNullable(b);
    var command :- GetNullable(principals.1);
    var cert :- GetNullable(command.1);
    var keys :- GetNullable(cert.1);
    Ok((Four(principals.0, command.0, cert.0, keys.0), keys.1))
  }

  datatype Three = Three(env: seq<Str>, permitOpen: seq<Str>, permitListen: seq<Str>)

  function GetArrays(b: seq<Byte>): Result<(Three, seq<Byte>)> {
    var env :- GetArray(b);
    var open :- GetArray(env.1);
    var listen :- GetArray(open.1);
    Ok((Three(env.0, open.0, listen.0), listen.1))
  }

  /** A record and the bytes that follow it. */
  function Decode(b: seq<Byte>): Result<(Options, seq<Byte>)> {
    var f :- GetFlags(b);
    var n :- GetNumbers(f.1);
    var s :- GetStrings(n.1);
    var a :- GetArrays(s.1);
    Ok((Options(f.0, n.0.0, n.0.1, s.0.certPrincipals, s.0.forceCommand, s.0.fromCert, s.0.fromKeys,
                a.0.env, a.0.permitOpen, a.0.permitListen), a.1))
  }

  // ------------------------------------------------------------------ round trip

  /** What survives the wire: flags modulo 256, and a tunnel device below -1 as 0. */
  function Carried(o: Options): Options {
    var f := o.flags;
    o.(flags := Flags(U8(f.permitPortForwarding), U8(f.permitAgentForwarding), U8(f.permitX11Forwarding), U8(f.permitPty),
                      U8(f.permitUserRc), U8(f.restricted), U8(f.certAuthority), U8(f.noRequireUserPresence), U8(f.requireVerify)),
       forceTunDevice := if o.forceTunDevice < -1 then 0 else o.forceTunDevice)
  }

  lemma FlagsRoundTrip(o: Options, rest: seq<Byte>)
    ensures GetFlags(PutFlags(o.flags) + rest) == Ok((Carried(o).flags, rest))
  {
    var b := PutFlags(o.flags) + rest;
    assert b[9..] == rest;
  }

  lemma TunRoundTrip(o: Options, rest: seq<Byte>)
    requires Representable(o)
    ensures GetTun(PutTun(o.forceTunDevice) + rest) == Ok((Carried(o).forceTunDevice, rest))
  {
    Powers();
    var tun := o.forceTunDevice;
    var flag, number := BigEndian(if tun == -1 then 1 else 0, 1), BigEndian(if tun < 0 then 0 else tun, 4);
    assert PutTun(tun) + rest == flag + (number + rest);
    NumberRoundTrip(if tun == -1 then 1 else 0, 1, number + rest);
    NumberRoundTrip(if tun < 0 then 0 else tun, 4, rest);
  }

  lemma NumbersRoundTrip(o: Options, rest: seq<Byte>)
    requires Representable(o)
    ensures GetNumbers(PutNumbers(o) + rest) == Ok(((o.validBefore, Carried(o).forceTunDevice), rest))
  {
    Powers();
    var tun := PutTun(o.forceTunDevice);
    assert PutNumbers(o) + rest == BigEndian(o.validBefore, 8) + (tun + rest);
    NumberRoundTrip(o.validBefore, 8, tun + rest);
    TunRoundTrip(o, rest);
  }

  lemma NullableRoundTrip(s: Option<Str>, rest: seq<Byte>)
    requires s.Some? ==> Sendable(s.value)
    ensures GetNullable(PutNullable(s) + rest) == Ok((s, rest))
  {
    Powers();
    hide Power, PutString, GetCString, GetNumber, BigEndian;
    var flag := if s.None? then 1 else 0;
    var text: Str := if s.None? then [] else s.value;
    assert PutNullable(s) + rest == BigEndian(flag, 1) + (PutString(text) + rest);
    NumberRoundTrip(flag, 1, PutString(text) + rest);
    CStringRoundTrip(text, rest);
  }

  lemma {:induction false} AllRoundTrip(a: seq<Str>, rest: seq<Byte>)
    requires |PutAll(a)| <= MAX_SIZE
    ensures GetAll(PutAll(a) + rest, |a|) == Ok(a)
  {
    hide PutString, GetCString;
    if a != [] {
      assert PutAll(a) + rest == PutString(a[0]) + (PutAll(a[1..]) + rest);
      CStringRoundTrip(a[0], PutAll(a[1..]) + rest);
      AllRoundTrip(a[1..], rest);
      assert [a[0]] + a[1..] == a;
    }
  }

  /** Every string takes at least the four bytes of its length. */
  lemma {:induction false} AllLength(a: seq<Str>)
    ensures |PutAll(a)| >= 4 * |a|
  {
    hide PutString;
    if a != [] {
      AllLength(a[1..]);
    }
  }

  lemma ArrayRoundTrip(a: seq<Str>, rest: seq<Byte>)
    requires Sendable(PutAll(a))
    ensures GetArray(PutArray(a) + rest) == Ok((a, rest))
  {
    Powers();
    AllLength(a);
    hide Power, PutString, PutAll, GetAll, GetString, GetNumber, BigEndian;
    var text := PutString(PutAll(a));
    assert PutArray(a) + rest == BigEndian(|a|, 4) + (text + rest);
    NumberRoundTrip(|a|, 4, text + rest);
    StringRoundTrip(PutAll(a), rest);
    AllRoundTrip(a, []);
    assert PutAll(a) + [] == PutAll(a);
  }

  lemma NullableLength(s: Option<Str>)
    ensures |PutNullable(s)| == 5 + if s.None? then 0 else |s.value|
  {
  }

  lemma ArrayLength(a: seq<Str>)
    ensures |PutArray(a)| == 8 + |PutAll(a)|
  {
  }

  lemma StringsRoundTrip(o: Options, rest: seq<Byte>)
    requires |PutStrings(o)| <= MAX_SIZE
    ensures GetStrings(PutStrings(o) + rest)
            == Ok((Four(o.certPrincipals, o.forceCommand, o.requiredFromHostCert, o.requiredFromHostKeys), rest))
  {
    NullableLength(o.certPrincipals);
    NullableLength(o.forceCommand);
    NullableLength(o.requiredFromHostCert);
    NullableLength(o.requiredFromHostKeys);
    hide PutNullable, GetNullable;
    var p, c, h, k := PutNullable(o.certPrincipals), PutNullable(o.forceCommand),
                      PutNullable(o.requiredFromHostCert), PutNullable(o.requiredFromHostKeys);
    assert PutStrings(o) + rest == p + (c + (h + (k + rest)));
    NullableRoundTrip(o.certPrincipals, c + (h + (k + rest)));
    NullableRoundTrip(o.forceCommand, h + (k + rest));
    NullableRoundTrip(o.requiredFromHostCert, k + rest);
    NullableRoundTrip(o.requiredFromHostKeys, rest);
  }

  lemma ArraysRoundTrip(o: Options, rest: seq<Byte>)
    requires |PutArrays(o)| <= MAX_SIZE
    ensures GetArrays(PutArrays(o) + rest) == Ok((Three(o.env, o.permitOpen, o.permitListen), rest))
  {
    ArrayLength(o.env);
    ArrayLength(o.permitOpen);
    ArrayLength(o.permitListen);
    hide PutArray, GetArray, PutAll;
    var e, p, l := PutArray(o.env), PutArray(o.permitOpen), PutArray(o.permitListen);
    assert PutArrays(o) + rest == e + (p + (l + rest));
    ArrayRoundTrip(o.env, p + (l + rest));
    ArrayRoundTrip(o.permitOpen, l + rest);
    ArrayRoundTrip(o.permitListen, rest);
  }

  /** A record that fits a buffer comes back as what the wire carries of it, and the
      bytes behind it are left alone. */
  lemma RoundTrip(o: Options, rest: seq<Byte>)
    requires Representable(o) && |Encode(o)| <= MAX_SIZE
    ensures Decode(Encode(o) + rest) == Ok((Carried(o), rest))
  {
    hide PutFlags, GetFlags, PutNumbers, GetNumbers, PutStrings, GetStrings, PutArrays, GetArrays;
    var f, n, s, a := PutFlags(o.flags), PutNumbers(o), PutStrings(o), PutArrays(o);
    assert Encode(o) + rest == f + (n + (s + (a + rest)));
    FlagsRoundTrip(o, n + (s + (a + rest)));
    NumbersRoundTrip(o, s + (a + rest));
    StringsRoundTrip(o, a + rest);
    ArraysRoundTrip(o, rest);
  }

  predicate IsByte(x: int) {
    0 <= x < 256
  }

  /** Flags that are bytes, and a tunnel device that is a number or unset. */
  predicate WellFormed(o: Options) {
    var f := o.flags;
    && IsByte(f.permitPortForwarding) && IsByte(f.permitAgentForwarding) && IsByte(f.permitX11Forwarding)
    && IsByte(f.permitPty) && IsByte(f.permitUserRc) && IsByte(f.restricted) && IsByte(f.certAuthority)
    && IsByte(f.noRequireUserPresence) && IsByte(f.requireVerify) && o.forceTunDevice >= -1
  }

  lemma ByteKept(x: int)
    ensures U8(x) == x <==> IsByte(x)
  {
  }

  lemma CarriedWhole(o: Options)
    ensures Carried(o) == o <==> WellFormed(o)
  {
    var f := o.flags;
    ByteKept(f.permitPortForwarding);
    ByteKept(f.permitAgentForwarding);
    ByteKept(f.permitX11Forwarding);
    ByteKept(f.permitPty);
    ByteKept(f.permitUserRc);
    ByteKept(f.restricted);
    ByteKept(f.certAuthority);
    ByteKept(f.noRequireUserPresence);
    ByteKept(f.requireVerify);
    hide U8, IsByte;
  }

  /** The same record comes back exactly when it is well formed. */
  lemma RoundTripExactly(o: Options, rest: seq<Byte>)
    requires Representable(o) && |Encode(o)| <= MAX_SIZE
    ensures Decode(Encode(o) + rest) == Ok((o, rest)) <==> WellFormed(o)
  {
    hide Encode, Decode, Carried, WellFormed;
    RoundTrip(o, rest);
    CarriedWhole(o);
  }

  /** A record whose tunnel device is -2 comes back with device 0. */
  lemma OddTunnelLost(o: Options)
    requires o.forceTunDevice == -2 && Representable(o) && |Encode(o)| <= MAX_SIZE
    ensures Decode(Encode(o)) == Ok((Carried(o), [])) && Carried(o).forceTunDevice == 0
  {
    RoundTrip(o, []);
    assert Encode(o) + [] == Encode(o);
  }

  // ----------------------------------------------------------- and the other way

  /** The string at the front of b was put without its terminator. */
  predicate PlainString(b: seq<Byte>) {
    var g := GetString(b);
    g.Ok? && (g.value.0 != [] ==> g.value.0[|g.value.0| - 1] != 0)
  }

  /** What is behind a string that was taken off gives it back exactly if it was plain. */
  lemma StringAgain(b: seq<Byte>, y: seq<Byte>)
    requires GetCString(b).Ok?
    ensures var (v, rest) := GetCString(b).value; PutString(v) + y == b <==> PlainString(b) && y == rest
  {
    var (v, rest) := GetCString(b).value;
    CStringExactly(b);
    GetStringPut(b);
    hide PutString;
    if PutString(v) + y == b {
      CStringRoundTrip(v, y);
      StringRoundTrip(v, y);
    }
  }

  /** The flag byte is 0 with a plain string, or 1 with an empty one. */
  predicate PlainNullable(b: seq<Byte>) {
    var f := GetNumber(b, 1);
    f.Ok? && if f.value.0 == 0 then PlainString(f.value.1)
             else f.value.0 == 1 && GetString(f.value.1).Ok? && GetString(f.value.1).value.0 == []
  }

  lemma NumberAgain(b: seq<Byte>, n: nat, x: nat, y: seq<Byte>)
    requires GetNumber(b, n).Ok? && x < Power(n)
    ensures BigEndian(x, n) + y == b <==> (x, y) == GetNumber(b, n).value
  {
    ValueBigEndian(b[..n]);
    assert b == b[..n] + b[n..];
    if BigEndian(x, n) + y == b {
      NumberRoundTrip(x, n, y);
    }
  }

  lemma NullableAgain(b: seq<Byte>, y: seq<Byte>)
    requires GetNullable(b).Ok?
    ensures var (v, rest) := GetNullable(b).value; PutNullable(v) + y == b <==> PlainNullable(b) && y == rest
  {
    Powers();
    hide Power, BigEndian, PutString, GetCString, GetNumber;
    var (v, rest) := GetNullable(b).value;
    var b1 := GetNumber(b, 1).value.1;
    var flag := if v.None? then 1 else 0;
    var text: Str := if v.None? then [] else v.value;
    assert PutNullable(v) + y == BigEndian(flag, 1) + (PutString(text) + y);
    NumberAgain(b, 1, flag, PutString(text) + y);
    if v.Some? {
      StringAgain(b1, y);
    } else {
      EmptyAgain(b1, y);
    }
  }

  lemma EmptyAgain(b: seq<Byte>, y: seq<Byte>)
    requires GetCString(b).Ok?
    ensures GetString(b).Ok? && (PutString([]) + y == b <==> GetString(b).value.0 == [] && y == GetCString(b).value.1)
  {
    GetStringPut(b);
    hide PutString;
    if PutString([]) + y == b {
      StringRoundTrip([], y);
    }
  }

  /** The strings fill s to its end, each plain. */
  predicate PlainAll(s: seq<Byte>, n: nat)
    decreases n
  {
    if n == 0 then s == [] else PlainString(s) && PlainAll(GetString(s).value.1, n - 1)
  }

  lemma RestOfString(s: seq<Byte>)
    requires GetCString(s).Ok?
    ensures GetString(s).Ok? && GetString(s).value.1 == GetCString(s).value.1
  {
  }

  lemma GetAllStep(s: seq<Byte>, n: nat)
    requires n > 0 && GetAll(s, n).Ok?
    ensures GetCString(s).Ok? && GetAll(GetCString(s).value.1, n - 1).Ok?
    ensures var (v, rest) := GetCString(s).value;
            var (a, tail) := (GetAll(s, n).value, GetAll(rest, n - 1).value);
            |a| == 1 + |tail| && PutAll(a) == PutString(v) + PutAll(tail)
  {
    hide PutString, GetCString;
    var (v, rest) := GetCString(s).value;
    var a, tail := GetAll(s, n).value, GetAll(rest, n - 1).value;
    assert a[0] == v && a[1..] == tail;
  }

  lemma GetAllNone(s: seq<Byte>)
    ensures GetAll(s, 0) == Ok([]) && PutAll([]) == []
  {
  }

  lemma StringShrinks(s: seq<Byte>)
    requires GetCString(s).Ok?
    ensures |PutString(GetCString(s).value.0)| + |GetCString(s).value.1| <= |s|
  {
    CStringExactly(s);
    hide GetCString;
  }

  lemma {:induction false} AllAgain(s: seq<Byte>, n: nat)
    requires GetAll(s, n).Ok?
    ensures var a := GetAll(s, n).value;
            |a| == n && |PutAll(a)| <= |s| && (PutAll(a) == s <==> PlainAll(s, n))
    decreases n
  {
    hide PutString, GetCString, PlainString, GetString, PutAll, GetAll;
    if n == 0 {
      GetAllNone(s);
    } else {
      GetAllStep(s, n);
      var rest := GetCString(s).value.1;
      AllAgain(rest, n - 1);
      StringAgain(s, PutAll(GetAll(rest, n - 1).value));
      StringShrinks(s);
      RestOfString(s);
    }
  }

  predicate PlainArray(b: seq<Byte>) {
    var n := GetNumber(b, 4);
    n.Ok? && GetString(n.value.1).Ok? && PlainAll(GetString(n.value.1).value.0, n.value.0)
  }

  lemma BytesAgain(b: seq<Byte>, s: seq<Byte>, y: seq<Byte>)
    requires GetString(b).Ok? && Sendable(s)
    ensures PutString(s) + y == b <==> (s, y) == GetString(b).value
  {
    GetStringPut(b);
    hide PutString;
    if PutString(s) + y == b {
      StringRoundTrip(s, y);
    }
  }

  lemma ArrayAgain(b: seq<Byte>, y: seq<Byte>)
    requires GetArray(b).Ok?
    ensures var (a, rest) := GetArray(b).value;
            Sendable(PutAll(a)) && (PutArray(a) + y == b <==> PlainArray(b) && y == rest)
  {
    Powers();
    var (a, rest) := GetArray(b).value;
    var (n, b1) := GetNumber(b, 4).value;
    var s := GetString(b1).value.0;
    GetStringPut(b1);
    AllAgain(s, n);
    hide Power, PutString, PutAll, GetAll, GetString, GetNumber, BigEndian, PlainAll;
    var text := PutString(PutAll(a));
    assert PutArray(a) + y == BigEndian(n, 4) + (text + y);
    NumberAgain(b, 4, n, text + y);
    BytesAgain(b1, PutAll(a), y);
  }

  /** The device is a non-negative int, or the flag is 1 and the number 0. */
  predicate PlainTun(b: seq<Byte>) {
    var f := GetNumber(b, 1);
    f.Ok? && GetNumber(f.value.1, 4).Ok?
    && var tun := GetNumber(f.value.1, 4).value.0;
    if f.value.0 == 0 then tun <= INT_MAX else f.value.0 == 1 && tun == 0
  }

  lemma TunAgain(b: seq<Byte>, y: seq<Byte>)
    requires GetTun(b).Ok?
    ensures var (tun, rest) := GetTun(b).value; PutTun(tun) + y == b <==> PlainTun(b) && y == rest
  {
    Powers();
    var (f, b1) := GetNumber(b, 1).value;
    var x := GetNumber(b1, 4).value.0;
    assert f < Power(1) && x < Power(4);
    hide Power, BigEndian, GetNumber;
    var (tun, rest) := GetTun(b).value;
    var flag, number := if tun == -1 then 1 else 0, if tun < 0 then 0 else tun;
    assert PutTun(tun) + y == BigEndian(flag, 1) + (BigEndian(number, 4) + y);
    NumberAgain(b, 1, flag, BigEndian(number, 4) + y);
    NumberAgain(b1, 4, number, y);
  }

  /** The bytes are what the printer would have put for the record they hold. */
  predicate PlainRecord(b: seq<Byte>)
    requires Decode(b).Ok?
  {
    var b1 := GetFlags(b).value.1;
    var b2 := GetNumber(b1, 8).value.1;
    var b3 := GetNumbers(b1).value.1;
    var b4 := GetStrings(b3).value.1;
    PlainTun(b2) && PlainFour(b3) && PlainThree(b4)
  }

  predicate PlainFour(b: seq<Byte>)
    requires GetStrings(b).Ok?
  {
    var b1 := GetNullable(b).value.1;
    var b2 := GetNullable(b1).value.1;
    var b3 := GetNullable(b2).value.1;
    PlainNullable(b) && PlainNullable(b1) && PlainNullable(b2) && PlainNullable(b3)
  }

  predicate PlainThree(b: seq<Byte>)
    requires GetArrays(b).Ok?
  {
    var b1 := GetArray(b).value.1;
    var b2 := GetArray(b1).value.1;
    PlainArray(b) && PlainArray(b1) && PlainArray(b2)
  }

  lemma FlagsAgain(b: seq<Byte>, y: seq<Byte>)
    requires GetFlags(b).Ok?
    ensures PutFlags(GetFlags(b).value.0) + y == b <==> y == GetFlags(b).value.1
  {
    var f := PutFlags(GetFlags(b).value.0);
    assert f == b[..9];
    assert b == b[..9] + b[9..];
    assert f + y == b ==> y == b[9..] by {
      if f + y == b {
        assert (f + y)[9..] == y;
      }
    }
  }

  lemma NumbersAgain(b: seq<Byte>, o: Options, y: seq<Byte>)
    requires GetNumbers(b).Ok? && GetNumbers(b).value.0 == (o.validBefore, o.forceTunDevice)
    ensures PutNumbers(o) + y == b <==> PlainTun(GetNumber(b, 8).value.1) && y == GetNumbers(b).value.1
  {
    Powers();
    var (x, b1) := GetNumber(b, 8).value;
    assert x < Power(8);
    hide Power, BigEndian, GetNumber, PutTun;
    var tun := PutTun(o.forceTunDevice);
    assert PutNumbers(o) + y == BigEndian(x, 8) + (tun + y);
    NumberAgain(b, 8, x, tun + y);
    TunAgain(b1, y);
  }

  lemma FourAgain(b: seq<Byte>, o: Options, y: seq<Byte>)
    requires GetStrings(b).Ok?
    requires GetStrings(b).value.0 == Four(o.certPrincipals, o.forceCommand, o.requiredFromHostCert, o.requiredFromHostKeys)
    ensures PutStrings(o) + y == b <==> PlainFour(b) && y == GetStrings(b).value.1
  {
    hide PutNullable, GetNullable, PlainNullable;
    var b1 := GetNullable(b).value.1;
    var b2 := GetNullable(b1).value.1;
    var b3 := GetNullable(b2).value.1;
    var p, c, h, k := PutNullable(o.certPrincipals), PutNullable(o.forceCommand),
                      PutNullable(o.requiredFromHostCert), PutNullable(o.requiredFromHostKeys);
    assert PutStrings(o) + y == p + (c + (h + (k + y)));
    NullableAgain(b, c + (h + (k + y)));
    NullableAgain(b1, h + (k + y));
    NullableAgain(b2, k + y);
    NullableAgain(b3, y);
  }

  lemma ThreeAgain(b: seq<Byte>, o: Options, y: seq<Byte>)
    requires GetArrays(b).Ok? && GetArrays(b).value.0 == Three(o.env, o.permitOpen, o.permitListen)
    ensures PutArrays(o) + y == b <==> PlainThree(b) && y == GetArrays(b).value.1
  {
    hide PutArray, GetArray, PlainArray;
    var b1 := GetArray(b).value.1;
    var b2 := GetArray(b1).value.1;
    var e, p, l := PutArray(o.env), PutArray(o.permitOpen), PutArray(o.permitListen);
    assert PutArrays(o) + y == e + (p + (l + y));
    ArrayAgain(b, p + (l + y));
    ArrayAgain(b1, l + y);
    ArrayAgain(b2, y);
  }

  /** Printing a record that was parsed gives its bytes back exactly when no flag byte of
      a string or the device is above 1, no string carries a terminator or hides behind
      null, the device fits an int and is 0 when unset, and no array has bytes left over. */
  lemma ReEncodedExactly(b: seq<Byte>)
    requires Decode(b).Ok?
    ensures var (o, rest) := Decode(b).value; Encode(o) + rest == b <==> PlainRecord(b)
  {
    hide PutFlags, GetFlags, PutNumbers, GetNumbers, PutStrings, GetStrings, PutArrays, GetArrays;
    hide PlainTun, PlainFour, PlainThree, GetNumber;
    var (o, rest) := Decode(b).value;
    var b1 := GetFlags(b).value.1;
    var b2 := GetNumbers(b1).value.1;
    var b3 := GetStrings(b2).value.1;
    var f, n, s, a := PutFlags(o.flags), PutNumbers(o), PutStrings(o), PutArrays(o);
    assert Encode(o) + rest == f + (n + (s + (a + rest)));
    FlagsAgain(b, n + (s + (a + rest)));
    NumbersAgain(b1, o, s + (a + rest));
    FourAgain(b2, o, a + rest);
    ThreeAgain(b3, o, rest);
  }

  // ------------------------------------------------------- the printer, field by field

  lemma {:induction false} PutAllNext(a: seq<Str>, s: Str)
    ensures PutAll(a + [s]) == PutAll(a) + PutString(s)
  {
    hide PutString;
    if a == [] {
      assert a + [s] == [s] && [s][1..] == [];
    } else {
      PutAllNext(a[1..], s);
      assert (a + [s])[1..] == a[1..] + [s];
    }
  }

  lemma {:induction false} PutAllPrefix(a: seq<Str>, i: nat)
    requires i <= |a|
    ensures |PutAll(a[..i])| <= |PutAll(a)|
    decreases |a| - i
  {
    hide PutString;
    if i < |a| {
      assert a[..i + 1] == a[..i] + [a[i]];
      PutAllNext(a[..i], a[i]);
      PutAllPrefix(a, i + 1);
    } else {
      assert a[..i] == a;
    }
  }

  /** The strings of an array one after the other in a buffer of their own. */
  method SerialiseAll(a: seq<Str>) returns (b: Buffer, ok: bool)
    ensures fresh(b)
    ensures ok <==> |PutAll(a)| <= MAX_SIZE
    ensures ok ==> b.bytes == PutAll(a)
  {
    hide PutString;
    b := new Buffer([]);
    ok := true;
    var i := 0;
    while i < |a|
      invariant 0 <= i <= |a| && fresh(b) && ok
      invariant b.bytes == PutAll(a[..i]) && |b.bytes| <= MAX_SIZE
    {
      PutAllNext(a[..i], a[i]);
      assert a[..i + 1] == a[..i] + [a[i]];
      PutAllPrefix(a, i + 1);
      ok := b.PutCString(a[i]);
      if !ok {
        return;
      }
      i := i + 1;
    }
    assert a[..i] == a;
  }

  /** serialise_array. */
  method SerialiseArray(m: Buffer, a: seq<Str>) returns (ok: bool)
    modifies m
    ensures ok <==> |old(m.bytes)| + |PutArray(a)| <= MAX_SIZE
    ensures ok ==> m.bytes == old(m.bytes) + PutArray(a)
  {
    AllLength(a);
    hide PutString, PutAll, BigEndian;
    if |a| > INT_MAX {
      return false;
    }
    var b;
    b, ok := SerialiseAll(a);
    if !ok {
      return;
    }
    ok := m.Put(BigEndian(|a|, 4));
    if !ok {
      return;
    }
    ok := m.Put(PutString(b.bytes));
    assert ok ==> m.bytes == old(m.bytes) + PutArray(a);
  }

  /** serialise_nullable_string. */
  method SerialiseNullable(m: Buffer, s: Option<Str>) returns (ok: bool)
    modifies m
    ensures ok <==> |old(m.bytes)| + |PutNullable(s)| <= MAX_SIZE
    ensures ok ==> m.bytes == old(m.bytes) + PutNullable(s)
  {
    hide PutString, BigEndian;
    ok := m.Put(BigEndian(if s.None? then 1 else 0, 1));
    if !ok {
      return;
    }
    ok := m.PutCString(if s.None? then [] else s.value);
    assert ok ==> m.bytes == old(m.bytes) + PutNullable(s);
  }

  method SerialiseFlags(m: Buffer, f: Flags) returns (ok: bool)
    modifies m
    ensures ok <==> |old(m.bytes)| + |PutFlags(f)| <= MAX_SIZE
    ensures ok ==> m.bytes == old(m.bytes) + PutFlags(f)
  {
    hide U8;
    ok := m.Put([U8(f.permitPortForwarding)]);
    if !ok {
      return;
    }
    ok := m.Put([U8(f.permitAgentForwarding)]);
    if !ok {
      return;
    }
    ok := m.Put([U8(f.permitX11Forwarding)]);
    if !ok {
      return;
    }
    ok := m.Put([U8(f.permitPty)]);
    if !ok {
      return;
    }
    ok := m.Put([U8(f.permitUserRc)]);
    if !ok {
      return;
    }
    ok := m.Put([U8(f.restricted)]);
    if !ok {
      return;
    }
    ok := m.Put([U8(f.certAuthority)]);
    if !ok {
      return;
    }
    ok := m.Put([U8(f.noRequireUserPresence)]);
    if !ok {
      return;
    }
    ok := m.Put([U8(f.requireVerify)]);
  }

  method SerialiseNumbers(m: Buffer, o: Options) returns (ok: bool)
    requires Representable(o)
    modifies m
    ensures ok <==> |old(m.bytes)| + |PutNumbers(o)| <= MAX_SIZE
    ensures ok ==> m.bytes == old(m.bytes) + PutNumbers(o)
  {
    hide BigEndian;
    var tun := o.forceTunDevice;
    ok := m.Put(BigEndian(o.validBefore, 8));
    if !ok {
      return;
    }
    ok := m.Put(BigEndian(if tun == -1 then 1 else 0, 1));
    if !ok {
      return;
    }
    ok := m.Put(BigEndian(if tun < 0 then 0 else tun, 4));
    assert ok ==> m.bytes == old(m.bytes) + PutNumbers(o);
  }

  method SerialiseStrings(m: Buffer, o: Options) returns (ok: bool)
    modifies m
    ensures ok <==> |old(m.bytes)| + |PutStrings(o)| <= MAX_SIZE
    ensures ok ==> m.bytes == old(m.bytes) + PutStrings(o)
  {
    hide PutNullable;
    ok := SerialiseNullable(m, o.certPrincipals);
    if !ok {
      return;
    }
    ok := SerialiseNullable(m, o.forceCommand);
    if !ok {
      return;
    }
    ok := SerialiseNullable(m, o.requiredFromHostCert);
    if !ok {
      return;
    }
    ok := SerialiseNullable(m, o.requiredFromHostKeys);
    assert ok ==> m.bytes == old(m.bytes) + PutStrings(o);
  }

  method SerialiseArrays(m: Buffer, o: Options) returns (ok: bool)
    modifies m
    ensures ok <==> |old(m.bytes)| + |PutArrays(o)| <= MAX_SIZE
    ensures ok ==> m.bytes == old(m.bytes) + PutArrays(o)
  {
    hide PutArray;
    ok := SerialiseArray(m, o.env);
    if !ok {
      return;
    }
    ok := SerialiseArray(m, o.permitOpen);
    if !ok {
      return;
    }
    ok := SerialiseArray(m, o.permitListen);
    assert ok ==> m.bytes == old(m.bytes) + PutArrays(o);
  }

  /** A record that gives nothing away: the principals are "yes", the command "true", and
      there are no hosts, no environment and no lists. */
  predicate Discreet(o: Options) {
    && o.certPrincipals == Some(['y' as int, 'e' as int, 's' as int])
    && o.forceCommand == Some(['t' as int, 'r' as int, 'u' as int, 'e' as int])
    && o.requiredFromHostCert == o.requiredFromHostKeys == None
    && o.env == o.permitOpen == o.permitListen == []
  }

  /** The whole of b is a discreet record. */
  predicate ReadsDiscreet(b: seq<Byte>) {
    var d := Decode(b);
    d.Ok? && Discreet(d.value.0) && d.value.1 == []
  }

  predicate SamePublic(o: Options, p: Options) {
    o.flags == p.flags && o.validBefore == p.validBefore && o.forceTunDevice == p.forceTunDevice
  }

  /** Two records with the same flags and numbers look the same to an untrusted receiver. */
  lemma UntrustedSame(o: Options, p: Options)
    requires SamePublic(o, p)
    ensures Encode(Sent(o, true)) == Encode(Sent(p, true))
  {
  }

  /** And what it decodes is discreet. */
  lemma UntrustedDiscreet(o: Options)
    requires Representable(o) && |Encode(Sent(o, true))| <= MAX_SIZE
    ensures ReadsDiscreet(Encode(Sent(o, true)))
  {
    hide Encode, Decode;
    RoundTrip(Sent(o, true), []);
    assert Encode(Sent(o, true)) + [] == Encode(Sent(o, true));
  }

  /** sshauthopt_serialise: the whole record behind what the buffer holds, if it fits; for an
      untrusted receiver, one that depends on the flags and numbers alone and decodes to a
      discreet record. */
  method Serialise(o: Options, m: Buffer, untrusted: bool) returns (ok: bool)
    requires Representable(o)
    modifies m
    ensures ok <==> |old(m.bytes)| + |Encode(Sent(o, untrusted))| <= MAX_SIZE
    ensures ok ==> m.bytes == old(m.bytes) + Encode(Sent(o, untrusted))
    ensures !untrusted && ok ==> m.bytes == old(m.bytes) + Encode(o)
    ensures untrusted && ok ==> |old(m.bytes)| <= |m.bytes| && ReadsDiscreet(m.bytes[|old(m.bytes)|..])
    ensures untrusted && ok ==> forall p: Options :: SamePublic(o, p) ==> m.bytes == old(m.bytes) + Encode(Sent(p, true))
  {
    assert !untrusted ==> Sent(o, untrusted) == o;
    ok := SerialiseSent(Sent(o, untrusted), m);
    hide Encode, Decode, ReadsDiscreet, Sent;
    if ok && untrusted {
      UntrustedDiscreet(o);
      forall p: Options | SamePublic(o, p) ensures Encode(Sent(p, true)) == Encode(Sent(o, true)) {
        UntrustedSame(o, p);
      }
      assert m.bytes[|old(m.bytes)|..] == Encode(Sent(o, true));
    }
  }

  /** Its steps, field by field. */
  method SerialiseSent(sent: Options, m: Buffer) returns (ok: bool)
    requires Representable(sent)
    modifies m
    ensures ok <==> |old(m.bytes)| + |Encode(sent)| <= MAX_SIZE
    ensures ok ==> m.bytes == old(m.bytes) + Encode(sent)
  {
    hide PutFlags, PutNumbers, PutStrings, PutArrays;
    ok := SerialiseFlags(m, sent.flags);
    if !ok {
      return;
    }
    ok := SerialiseNumbers(m, sent);
    if !ok {
      return;
    }
    ok := SerialiseStrings(m, sent);
    if !ok {
      return;
    }
    ok := SerialiseArrays(m, sent);
    assert ok ==> m.bytes == old(m.bytes) + Encode(sent);
  }

  // -------------------------------------------------------- the parser, field by field

  function Prepend(a: seq<Str>, r: Result<seq<Str>>): Result<seq<Str>> {
    if r.Ok? then Ok(a + r.value) else r
  }

  /** deserialise_array. */
  method DeserialiseArray(m: Buffer) returns (r: Result<seq<Str>>)
    modifies m
    ensures r.Ok? ==> GetArray(old(m.bytes)) == Ok((r.value, m.bytes))
    ensures r.Err? ==> GetArray(old(m.bytes)).Err?
  {
    hide GetNumber, GetString, GetCString;
    var n := m.TakeNumber(4);
    if n.Err? {
      return Err(n.error);
    }
    var b := m.TakeBuffer();
    if b.Err? {
      return Err(b.error);
    }
    if n.value > INT_MAX {
      return Err(InvalidFormat);
    }
    ghost var rest := m.bytes;
    ghost var inside := b.value.bytes;
    var a: seq<Str> := [];
    var i := 0;
    PrependNone(GetAll(inside, n.value));
    while i < n.value
      invariant 0 <= i <= n.value && m.bytes == rest && |a| == i
      invariant GetAll(inside, n.value) == Prepend(a, GetAll(b.value.bytes, n.value - i))
    {
      var s := b.value.TakeCString();
      if s.Err? {
        return Err(s.error);
      }
      PrependNext(a, s.value, GetAll(b.value.bytes, n.value - i - 1));
      a := a + [s.value];
      i := i + 1;
    }
    assert a + [] == a;
    r := Ok(a);
  }

  lemma PrependNone(r: Result<seq<Str>>)
    ensures Prepend([], r) == r
  {
    assert r.Ok? ==> [] + r.value == r.value;
  }

  lemma PrependNext(a: seq<Str>, s: Str, r: Result<seq<Str>>)
    ensures r.Ok? ==> Prepend(a, Ok([s] + r.value)) == Prepend(a + [s], r)
  {
    assert r.Ok? ==> a + ([s] + r.value) == a + [s] + r.value;
  }

  /** deserialise_nullable_string. */
  method DeserialiseNullable(m: Buffer) returns (r: Result<Option<Str>>)
    modifies m
    ensures r.Ok? ==> GetNullable(old(m.bytes)) == Ok((r.value, m.bytes))
    ensures r.Err? ==> GetNullable(old(m.bytes)).Err?
  {
    hide GetNumber, GetCString;
    var isNull := m.TakeNumber(1);
    if isNull.Err? {
      return Err(isNull.error);
    }
    var s := m.TakeCString();
    if s.Err? {
      return Err(s.error);
    }
    r := Ok(if isNull.value != 0 then None else Some(s.value));
  }

  method TakeByte(m: Buffer) returns (r: Result<nat>)
    modifies m
    ensures r.Ok? <==> old(m.bytes) != []
    ensures r.Ok? ==> r.value == old(m.bytes)[0] && m.bytes == old(m.bytes)[1..]
  {
    r := m.TakeNumber(1);
    assert r.Ok? ==> old(m.bytes)[..1] == [old(m.bytes)[0]] && Value([old(m.bytes)[0]]) == old(m.bytes)[0];
  }

  method DeserialiseFlags(m: Buffer) returns (r: Result<Flags>)
    modifies m
    ensures r.Ok? ==> GetFlags(old(m.bytes)) == Ok((r.value, m.bytes))
    ensures r.Err? ==> GetFlags(old(m.bytes)).Err?
  {
    var x0 := TakeByte(m);
    if x0.Err? {
      return Err(x0.error);
    }
    var x1 := TakeByte(m);
    if x1.Err? {
      return Err(x1.error);
    }
    var x2 := TakeByte(m);
    if x2.Err? {
      return Err(x2.error);
    }
    var x3 := TakeByte(m);
    if x3.Err? {
      return Err(x3.error);
    }
    var x4 := TakeByte(m);
    if x4.Err? {
      return Err(x4.error);
    }
    var x5 := TakeByte(m);
    if x5.Err? {
      return Err(x5.error);
    }
    var x6 := TakeByte(m);
    if x6.Err? {
      return Err(x6.error);
    }
    var x7 := TakeByte(m);
    if x7.Err? {
      return Err(x7.error);
    }
    var x8 := TakeByte(m);
    if x8.Err? {
      return Err(x8.error);
    }
    r := Ok(Flags(x0.value, x1.value, x2.value, x3.value, x4.value, x5.value, x6.value, x7.value, x8.value));
  }

  method DeserialiseNumbers(m: Buffer) returns (r: Result<(nat, int)>)
    modifies m
    ensures r.Ok? ==> GetNumbers(old(m.bytes)) == Ok((r.value, m.bytes))
    ensures r.Err? ==> GetNumbers(old(m.bytes)).Err?
  {
    hide GetNumber;
    var before := m.TakeNumber(8);
    if before.Err? {
      return Err(before.error);
    }
    var unset := m.TakeNumber(1);
    if unset.Err? {
      return Err(unset.error);
    }
    var tun := m.TakeNumber(4);
    if tun.Err? {
      return Err(tun.error);
    }
    r := Ok((before.value, if unset.value != 0 then -1 else ToInt(tun.value)));
  }

  method DeserialiseStrings(m: Buffer) returns (r: Result<Four>)
    modifies m
    ensures r.Ok? ==> GetStrings(old(m.bytes)) == Ok((r.value, m.bytes))
    ensures r.Err? ==> GetStrings(old(m.bytes)).Err?
  {
    hide GetNullable;
    var principals := DeserialiseNullable(m);
    if principals.Err? {
      return Err(principals.error);
    }
    var command := DeserialiseNullable(m);
    if command.Err? {
      return Err(command.error);
    }
    var cert := DeserialiseNullable(m);
    if cert.Err? {
      return Err(cert.error);
    }
    var keys := DeserialiseNullable(m);
    if keys.Err? {
      return Err(keys.error);
    }
    r := Ok(Four(principals.value, command.value, cert.value, keys.value));
  }

  method DeserialiseArrays(m: Buffer) returns (r: Result<Three>)
    modifies m
    ensures r.Ok? ==> GetArrays(old(m.bytes)) == Ok((r.value, m.bytes))
    ensures r.Err? ==> GetArrays(old(m.bytes)).Err?
  {
    hide GetArray;
    var env := DeserialiseArray(m);
    if env.Err? {
      return Err(env.error);
    }
    var open := DeserialiseArray(m);
    if open.Err? {
      return Err(open.error);
    }
    var listen := DeserialiseArray(m);
    if listen.Err? {
      return Err(listen.error);
    }
    r := Ok(Three(env.value, open.value, listen.value));
  }

  /** sshauthopt_deserialise: what Decode says, leaving the bytes behind the record. */
  method Deserialise(m: Buffer) returns (r: Result<Options>)
    modifies m
    ensures r.Ok? ==> Decode(old(m.bytes)) == Ok((r.value, m.bytes))
    ensures r.Err? ==> Decode(old(m.bytes)).Err?
  {
    hide GetFlags, GetNumbers, GetStrings, GetArrays;
    var f := DeserialiseFlags(m);
    if f.Err? {
      return Err(f.error);
    }
    var n := DeserialiseNumbers(m);
    if n.Err? {
      return Err(n.error);
    }
    var s := DeserialiseStrings(m);
    if s.Err? {
      return Err(s.error);
    }
    var a := DeserialiseArrays(m);
    if a.Err? {
      return Err(a.error);
    }
    r := Ok(Options(f.value, n.value.0, n.value.1, s.value.certPrincipals, s.value.forceCommand,
                    s.value.fromCert, s.value.fromKeys, a.value.env, a.value.permitOpen, a.value.permitListen));
  }

  /** Both together: a record sent through an empty buffer arrives as what the wire carries
      of it, with nothing left over; the record itself if it is well formed and the receiver
      is trusted, and a discreet one if not. */
  method SendAndReceive(o: Options, untrusted: bool) returns (r: Option<Options>)
    requires Representable(o)
    ensures r == if |Encode(Sent(o, untrusted))| <= MAX_SIZE then Some(Carried(Sent(o, untrusted))) else None
    ensures r.Some? && !untrusted && WellFormed(o) ==> r.value == o
    ensures r.Some? && untrusted ==> Discreet(r.value)
    ensures r.Some? && untrusted && WellFormed(o) ==>
              (r.value.flags, r.value.validBefore, r.value.forceTunDevice) == (o.flags, o.validBefore, o.forceTunDevice)
  {
    CarriedWhole(o);
    CarriedWhole(Sent(o, untrusted));
    hide Encode, Decode, WellFormed;
    ghost var sent := Sent(o, untrusted);
    var m := new Buffer([]);
    var ok := Serialise(o, m, untrusted);
    if !ok {
      return None;
    }
    assert m.bytes == Encode(sent) + [];
    RoundTrip(sent, []);
    WellFormedSent(o, untrusted);
    var d := Deserialise(m);
    r := Some(d.value);
  }

  lemma WellFormedSent(o: Options, untrusted: bool)
    ensures WellFormed(Sent(o, untrusted)) <==> WellFormed(o)
  {
  }
}
