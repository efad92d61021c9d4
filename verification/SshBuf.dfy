/** The wire types of section 5 of RFC 4251 as ssh_keygen/sshbuf-getput-basic.c puts
    them on a buffer and takes them off: bytes, big-endian integers, and strings with
    their length in front.
  */
module SshBuf {

  type Byte = b: int | 0 <= b < 256

  datatype Error = Incomplete | TooLarge | InvalidFormat | NoSpace

  datatype Result<+T> = Ok(value: T) | Err(error: Error) {
    predicate IsFailure() { Err? }

    function PropagateFailure<U>(): Result<U>
      requires IsFailure()
    {
      Err(error)
    }

    function Extract(): T
      requires !IsFailure()
    {
      value
    }
  }

  /** SSHBUF_SIZE_MAX: no buffer grows beyond this. */
  const MAX_SIZE: nat := 0x800_0000
  const INT_MAX: int := 0x7fff_ffff

  // -------------------------------------------------------------------- integers

  function Power(n: nat): (r: nat)
    ensures r > 0
  {
    if n == 0 then 1 else 256 * Power(n - 1)
  }

  /** x in n bytes, the most significant first; what does not fit is cut off. */
  function BigEndian(x: nat, n: nat): (s: seq<Byte>)
    ensures |s| == n
    decreases n
  {
    if n == 0 then [] else BigEndian(x / 256, n - 1) + [x % 256]
  }

  function Value(s: seq<Byte>): (x: nat)
    ensures x < Power(|s|)
    decreases |s|
  {
    if s == [] then 0 else Value(s[..|s| - 1]) * 256 + s[|s| - 1]
  }

  /** What is stored is read back. */
  lemma {:induction false} BigEndianValue(x: nat, n: nat)
    requires x < Power(n)
    ensures Value(BigEndian(x, n)) == x
    decreases n
  {
    if n > 0 {
      BigEndianValue(x / 256, n - 1);
      var s := BigEndian(x, n);
      assert s[..|s| - 1] == BigEndian(x / 256, n - 1);
    }
  }

  lemma Powers()
    ensures Power(1) == 0x100 && Power(4) == 0x1_0000_0000 && Power(8) == 0x1_0000_0000_0000_0000
  {
    assert Power(2) == 0x1_0000 && Power(3) == 0x100_0000 && Power(4) == 0x1_0000_0000;
    assert Power(5) == 0x100_0000_0000 && Power(6) == 0x1_0000_0000_0000 && Power(7) == 0x100_0000_0000_0000;
  }

  /** sshbuf_get_u8, _u32 and _u64: the first n bytes as a number, and the rest. */
  function GetNumber(b: seq<Byte>, n: nat): Result<(nat, seq<Byte>)> {
    if |b| < n then Err(Incomplete) else Ok((Value(b[..n]), b[n..]))
  }

  lemma NumberRoundTrip(x: nat, n: nat, rest: seq<Byte>)
    requires x < Power(n)
    ensures GetNumber(BigEndian(x, n) + rest, n) == Ok((x, rest))
  {
    var b := BigEndian(x, n) + rest;
    assert b[..n] == BigEndian(x, n) && b[n..] == rest;
    BigEndianValue(x, n);
  }

  // --------------------------------------------------------------------- strings

  /** A C string: its bytes up to the terminator. */
  type Str = s: seq<Byte> | 0 !in s witness []

  /** sshbuf_put_string. */
  function PutString(s: seq<Byte>): (r: seq<Byte>)
    ensures |r| == 4 + |s|
  {
    BigEndian(|s|, 4) + s
  }

  /** sshbuf_get_string_direct: a length, that many bytes, and the rest. */
  function GetString(b: seq<Byte>): Result<(seq<Byte>, seq<Byte>)> {
    if |b| < 4 then Err(Incomplete)
    else
      var n := Value(b[..4]);
      if n > MAX_SIZE - 4 then Err(TooLarge)
      else if |b| - 4 < n then Err(Incomplete)
      else Ok((b[4..4 + n], b[4 + n..]))
  }

  /** sshbuf_get_cstring: a zero byte only at the end, where it is the terminator. */
  function GetCString(b: seq<Byte>): Result<(Str, seq<Byte>)> {
    var p :- GetString(b);
    var s := p.0;
    if s != [] && 0 in s[..|s| - 1] then Err(InvalidFormat)
    else
      var v: Str := if s != [] && s[|s| - 1] == 0 then s[..|s| - 1] else (OnlyLast(s); s);
      Ok((v, p.1))
  }

  lemma OnlyLast(s: seq<Byte>)
    requires s == [] || (0 !in s[..|s| - 1] && s[|s| - 1] != 0)
    ensures 0 !in s
  {
    assert s != [] ==> s == s[..|s| - 1] + [s[|s| - 1]];
  }

  lemma StringRoundTrip(s: seq<Byte>, rest: seq<Byte>)
    requires |s| <= MAX_SIZE - 4
    ensures GetString(PutString(s) + rest) == Ok((s, rest))
  {
    Powers();
    var b := PutString(s) + rest;
    assert b[..4] == BigEndian(|s|, 4);
    BigEndianValue(|s|, 4);
    assert b[4..4 + |s|] == s && b[4 + |s|..] == rest;
  }

  lemma CStringRoundTrip(s: Str, rest: seq<Byte>)
    requires |s| <= MAX_SIZE - 4
    ensures GetCString(PutString(s) + rest) == Ok((s, rest))
  {
    StringRoundTrip(s, rest);
  }

  /** What sshbuf_put_string accepts. */
  predicate Sendable(s: seq<Byte>) {
    |s| <= MAX_SIZE - 4
  }

  lemma FirstZeroTells(s: seq<Byte>, z: nat)
    requires z <= |s| && 0 !in s[..z] && (z < |s| ==> s[z] == 0)
    ensures s != [] ==> (0 in s[..|s| - 1] <==> z < |s| - 1)
    ensures z >= |s| - 1 ==> s[..z] == if s != [] && s[|s| - 1] == 0 then s[..|s| - 1] else s
  {
    if s != [] && z < |s| - 1 {
      assert s[..|s| - 1][z] == 0;
    }
    assert s != [] && z >= |s| - 1 ==> forall k :: 0 <= k < |s| - 1 ==> s[..|s| - 1][k] == s[..z][k];
    assert z == |s| ==> s[..z] == s && (s != [] ==> s[..z][|s| - 1] == s[|s| - 1]);
  }

  /** Any buffer that GetString accepts begins with what PutString puts. */
  lemma GetStringPut(b: seq<Byte>)
    requires GetString(b).Ok?
    ensures var (s, rest) := GetString(b).value; Sendable(s) && b == PutString(s) + rest
  {
    var n := Value(b[..4]);
    ValueBigEndian(b[..4]);
    assert b == b[..4] + b[4..4 + n] + b[4 + n..];
  }

  /** What is read is stored again as it was. */
  lemma {:induction false} ValueBigEndian(s: seq<Byte>)
    ensures BigEndian(Value(s), |s|) == s
  {
    if s != [] {
      var k := |s| - 1;
      ValueBigEndian(s[..k]);
      var x := Value(s[..k]);
      assert (x * 256 + s[k]) / 256 == x && (x * 256 + s[k]) % 256 == s[k];
      assert s == s[..k] + [s[k]];
    }
  }

  /** A string that was put with its terminator is taken off without it. */
  lemma TerminatedRoundTrip(v: Str, rest: seq<Byte>)
    requires Sendable(v + [0])
    ensures GetCString(PutString(v + [0]) + rest) == Ok((v, rest))
  {
    StringRoundTrip(v + [0], rest);
    assert (v + [0])[..|v|] == v;
  }

  /** Exactly when a C string is accepted, and which. */
  lemma CStringExactly(b: seq<Byte>)
    ensures var g := GetCString(b);
            g.Ok? ==> var (v, rest) := g.value;
            |v| <= MAX_SIZE - 4 && (b == PutString(v) + rest || b == PutString(v + [0]) + rest)
    ensures GetCString(b).Err? ==> forall v: Str, rest :: Sendable(v) ==> b != PutString(v) + rest
    ensures GetCString(b).Err? ==> forall v: Str, rest :: Sendable(v + [0]) ==> b != PutString(v + [0]) + rest
  {
    if GetCString(b).Ok? {
      GetStringPut(b);
      var s := GetString(b).value.0;
      assert s != [] ==> s == s[..|s| - 1] + [s[|s| - 1]];
    } else {
      forall v: Str, rest | Sendable(v) ensures b != PutString(v) + rest {
        CStringRoundTrip(v, rest);
      }
      forall v: Str, rest | Sendable(v + [0]) ensures b != PutString(v + [0]) + rest {
        TerminatedRoundTrip(v, rest);
      }
    }
  }

  // ------------------------------------------------------------------ the buffer

  /** struct sshbuf: bytes are added at the end and taken from the front. */
  class Buffer {
    var bytes: seq<Byte>

    constructor (b: seq<Byte>)
      ensures bytes == b
    {
      bytes := b;
    }

    /** sshbuf_reserve and a copy: refused when the buffer would outgrow its limit. */
    method Put(data: seq<Byte>) returns (ok: bool)
      modifies this
      ensures ok <==> |old(bytes)| + |data| <= MAX_SIZE
      ensures bytes == if ok then old(bytes) + data else old(bytes)
    {
      ok := |bytes| + |data| <= MAX_SIZE;
      if ok {
        bytes := bytes + data;
      }
    }

    /** sshbuf_put_cstring. */
    method PutCString(s: Str) returns (ok: bool)
      modifies this
      ensures ok <==> |old(bytes)| + |PutString(s)| <= MAX_SIZE
      ensures bytes == if ok then old(bytes) + PutString(s) else old(bytes)
    {
      if |s| > MAX_SIZE - 4 {
        return false;
      }
      ok := Put(PutString(s));
    }

    /** sshbuf_get_u8, _u32, _u64: nothing is consumed on failure. */
    method TakeNumber(n: nat) returns (r: Result<nat>)
      modifies this
      ensures r.Ok? ==> GetNumber(old(bytes), n) == Ok((r.value, bytes))
      ensures r.Err? ==> GetNumber(old(bytes), n) == Err(r.error) && bytes == old(bytes)
    {
      if n > |bytes| {
        return Err(Incomplete);
      }
      r := Ok(Value(bytes[..n]));
      bytes := bytes[n..];
    }

    /** memchr for the terminator: the place of the first zero byte in s, or |s|. */
    static method FirstZero(s: seq<Byte>) returns (z: nat)
      ensures z <= |s| && 0 !in s[..z] && (z < |s| ==> s[z] == 0)
    {
      z := 0;
      while z < |s| && s[z] != 0
        invariant z <= |s| && 0 !in s[..z]
      {
        assert s[..z + 1] == s[..z] + [s[z]];
        z := z + 1;
      }
    }

    /** sshbuf_get_cstring: succeeds exactly when the buffer begins with a C string as put
        there, or with one that was put with its terminator; then that string is consumed,
        and otherwise nothing is. */
    method TakeCString() returns (r: Result<Str>)
      modifies this
      ensures r.Ok? ==> |r.value| <= MAX_SIZE - 4
      ensures r.Ok? ==> old(bytes) == PutString(r.value) + bytes || old(bytes) == PutString(r.value + [0]) + bytes
      ensures r.Err? ==> bytes == old(bytes)
      ensures r.Err? ==> forall v: Str, rest :: Sendable(v) ==> old(bytes) != PutString(v) + rest
      ensures r.Err? ==> forall v: Str, rest :: Sendable(v + [0]) ==> old(bytes) != PutString(v + [0]) + rest
      ensures r.Ok? ==> GetCString(old(bytes)) == Ok((r.value, bytes))
      ensures r.Err? ==> GetCString(old(bytes)) == Err(r.error)
    {
      CStringExactly(bytes);
      if |bytes| < 4 {
        return Err(Incomplete);
      }
      var len := Value(bytes[..4]);
      if len > MAX_SIZE - 4 {
        return Err(TooLarge);
      }
      if |bytes| - 4 < len {
        return Err(Incomplete);
      }
      var s := bytes[4..4 + len];
      var z := FirstZero(s);
      FirstZeroTells(s, z);
      if z < |s| - 1 {
        return Err(InvalidFormat);
      }
      bytes := bytes[4 + len..];
      r := Ok(s[..z]);
    }

    /** sshbuf_froms: a string taken off as a buffer of its own. */
    method TakeBuffer() returns (r: Result<Buffer>)
      modifies this
      ensures r.Ok? ==> fresh(r.value) && GetString(old(bytes)) == Ok((r.value.bytes, bytes))
      ensures r.Err? ==> GetString(old(bytes)) == Err(r.error) && bytes == old(bytes)
    {
      var g := GetString(bytes);
      if g.Err? {
        return Err(g.error);
      }
      var b := new Buffer(g.value.0);
      bytes := g.value.1;
      r := Ok(b);
    }
  }
}
