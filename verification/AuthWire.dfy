/** Where each field of a key-option record lies in its bytes, ssh-agent/auth-options.c, as
    positions in the buffer and without the functions that put and take them.
  */
module AuthWire {
  import opened AuthOptions
  import opened SshBuf
  import opened Wrappers

  function Word32(w: nat, x: nat, y: nat, z: nat): nat {
    0x100_0000 * w + 0x1_0000 * x + 0x100 * y + z
  }

  function U32At(b: seq<Byte>, p: nat): nat
    requires p + 4 <= |b|
  {
    Word32(b[p], b[p + 1], b[p + 2], b[p + 3])
  }

  function U64At(b: seq<Byte>, p: nat): nat
    requires p + 8 <= |b|
  {
    U32At(b, p) * 0x1_0000_0000 + U32At(b, p + 4)
  }

  /** A string from p up to q: four bytes of length and the bytes themselves. */
  ghost predicate TextAt(b: seq<Byte>, p: nat, s: seq<Byte>, q: nat) {
    p + 4 <= q <= |b| && U32At(b, p) == q - p - 4 <= MAX_SIZE - 4 && s == b[p + 4..q]
  }

  /** A C string, with its terminator or without. */
  ghost predicate CTextAt(b: seq<Byte>, p: nat, v: Str, q: nat) {
    TextAt(b, p, v, q) || TextAt(b, p, v + [0], q)
  }

  /** A byte that is 0 unless the string is null, and a C string in any case. */
  ghost predicate NullableAt(b: seq<Byte>, p: nat, s: Option<Str>, q: nat) {
    exists v: Str :: NullableBy(b, p, s, q, v)
  }

  ghost predicate NullableBy(b: seq<Byte>, p: nat, s: Option<Str>, q: nat, v: Str) {
    p < |b| && CTextAt(b, p + 1, v, q) && s == if b[p] == 0 then Some(v) else None
  }

  /** C strings one behind the other from p on, with or without something behind them. */
  ghost predicate TextsIn(b: seq<Byte>, p: nat, a: seq<Str>)
    decreases |a|
  {
    a == [] || exists r :: CTextAt(b, p, a[0], r) && TextsIn(b, r, a[1..])
  }

  /** The number of strings, and one string that holds them. */
  ghost predicate ArrayAt(b: seq<Byte>, p: nat, a: seq<Str>, q: nat) {
    && p + 8 <= q <= |b| && U32At(b, p) == |a| <= INT_MAX
    && U32At(b, p + 4) == q - p - 8 <= MAX_SIZE - 4 && TextsIn(b[p + 8..q], 0, a)
  }

  ghost predicate FlagsAt(b: seq<Byte>, f: Flags) {
    && |b| >= 9
    && f.permitPortForwarding == b[0] && f.permitAgentForwarding == b[1] && f.permitX11Forwarding == b[2]
    && f.permitPty == b[3] && f.permitUserRc == b[4] && f.restricted == b[5]
    && f.certAuthority == b[6] && f.noRequireUserPresence == b[7] && f.requireVerify == b[8]
  }

  /** valid_before in bytes 9 to 16, and the tunnel device: a flag for unset in byte 17, and
      an int in bytes 18 to 21. */
  ghost predicate NumbersAt(b: seq<Byte>, validBefore: nat, tun: int) {
    && |b| >= 22 && validBefore == U64At(b, 9)
    && tun == if b[17] != 0 then -1 else if U32At(b, 18) > INT_MAX then U32At(b, 18) - 0x1_0000_0000 else U32At(b, 18)
  }

  ghost predicate StringsAt(b: seq<Byte>, p: nat, o: Options, q: nat) {
    exists p1, p2, p3 ::
      && NullableAt(b, p, o.certPrincipals, p1) && NullableAt(b, p1, o.forceCommand, p2)
      && NullableAt(b, p2, o.requiredFromHostCert, p3) && NullableAt(b, p3, o.requiredFromHostKeys, q)
  }

  ghost predicate ArraysAt(b: seq<Byte>, p: nat, o: Options, q: nat) {
    exists p1, p2 ::
      ArrayAt(b, p, o.env, p1) && ArrayAt(b, p1, o.permitOpen, p2) && ArrayAt(b, p2, o.permitListen, q)
  }

  /** The record o from the front of b up to end. */
  ghost predicate RecordIn(b: seq<Byte>, o: Options, end: nat) {
    && FlagsAt(b, o.flags) && NumbersAt(b, o.validBefore, o.forceTunDevice)
    && exists p :: StringsAt(b, 22, o, p) && ArraysAt(b, p, o, end)
  }

  // ---------------------------------------------------------------- field by field

  lemma ValueOne(s: seq<Byte>)
    requires |s| == 1
    ensures Value(s) == s[0]
  {
    assert s[..0] == [];
  }

  lemma {:induction false} ValueFour(s: seq<Byte>)
    requires |s| == 4
    ensures Value(s) == Word32(s[0], s[1], s[2], s[3])
  {
    assert s[..3][..2] == s[..2] && s[..2][..1] == s[..1] && s[..1][..0] == [];
    assert Value(s[..1]) == s[0] && Value(s[..2]) == Word32(0, 0, s[0], s[1]);
    assert Value(s[..3]) == Word32(0, s[0], s[1], s[2]);
  }

  lemma {:induction false} ValueEight(s: seq<Byte>)
    requires |s| == 8
    ensures Value(s) == Value(s[..4]) * 0x1_0000_0000 + Value(s[4..])
  {
    ValueFour(s[4..]);
    hide Value;
    ValueNext(s[..7], s[7]);
    ValueNext(s[..6], s[6]);
    ValueNext(s[..5], s[5]);
    ValueNext(s[..4], s[4]);
    assert s == s[..7] + [s[7]] && s[..7] == s[..6] + [s[6]] && s[..6] == s[..5] + [s[5]] && s[..5] == s[..4] + [s[4]];
  }

  lemma ValueNext(s: seq<Byte>, x: Byte)
    ensures Value(s + [x]) == Value(s) * 256 + x
  {
    assert (s + [x])[..|s|] == s;
  }

  lemma NumberAt(b: seq<Byte>, p: nat)
    requires p + 4 <= |b|
    ensures Value(b[p..p + 4]) == U32At(b, p) && GetNumber(b[p..], 4) == Ok((U32At(b, p), b[p + 4..]))
  {
    ValueFour(b[p..p + 4]);
    assert b[p..][..4] == b[p..p + 4] && b[p..][4..] == b[p + 4..];
  }

  lemma TextIsString(b: seq<Byte>, p: nat, s: seq<Byte>, q: nat)
    requires p <= |b|
    ensures TextAt(b, p, s, q) <==> q <= |b| && GetString(b[p..]) == Ok((s, b[q..]))
  {
    var c := b[p..];
    if |c| >= 4 {
      NumberAt(b, p);
      var n := U32At(b, p);
      assert c[..4] == b[p..p + 4];
      if n <= MAX_SIZE - 4 && n <= |c| - 4 {
        assert c[4..4 + n] == b[p + 4..p + 4 + n] && c[4 + n..] == b[p + 4 + n..];
        assert q <= |b| && b[q..] == b[p + 4 + n..] ==> |b[q..]| == |b| - q;
      }
    }
  }

  lemma StringEnds(b: seq<Byte>, p: nat) returns (q: nat)
    requires p <= |b| && GetString(b[p..]).Ok?
    ensures p <= q <= |b| && GetString(b[p..]).value.1 == b[q..]
  {
    var c := b[p..];
    var n := Value(c[..4]);
    q := p + 4 + n;
    assert c[4 + n..] == b[q..];
  }

  lemma CTextIsCString(b: seq<Byte>, p: nat, v: Str, q: nat)
    requires p <= |b|
    ensures CTextAt(b, p, v, q) <==> q <= |b| && GetCString(b[p..]) == Ok((v, b[q..]))
  {
    TextIsString(b, p, v, q);
    TextIsString(b, p, v + [0], q);
    hide GetString, TextAt;
    assert (v + [0])[..|v|] == v;
    var g := GetString(b[p..]);
    if g.Ok? && q <= |b| && GetCString(b[p..]) == Ok((v, b[q..])) {
      var s := g.value.0;
      assert s != [] ==> s == s[..|s| - 1] + [s[|s| - 1]];
    }
  }

  lemma CStringEnds(b: seq<Byte>, p: nat) returns (q: nat)
    requires p <= |b| && GetCString(b[p..]).Ok?
    ensures p <= q <= |b| && GetCString(b[p..]).value.1 == b[q..]
  {
    q := StringEnds(b, p);
  }

  lemma FlagByte(b: seq<Byte>, p: nat)
    requires p < |b|
    ensures GetNumber(b[p..], 1) == Ok((b[p], b[p + 1..]))
  {
    var c := b[p..];
    assert c[..1] == [b[p]] && c[1..] == b[p + 1..];
    ValueOne([b[p]]);
  }

  lemma NullableIs(b: seq<Byte>, p: nat, s: Option<Str>, q: nat)
    requires p <= |b|
    ensures NullableAt(b, p, s, q) <==> q <= |b| && GetNullable(b[p..]) == Ok((s, b[q..]))
  {
    if p < |b| {
      FlagByte(b, p);
      hide GetCString, CTextAt, GetNumber;
      if NullableAt(b, p, s, q) {
        var v: Str :| NullableBy(b, p, s, q, v);
        CTextIsCString(b, p + 1, v, q);
      }
      if q <= |b| && GetNullable(b[p..]) == Ok((s, b[q..])) {
        var v := GetCString(b[p + 1..]).value.0;
        CTextIsCString(b, p + 1, v, q);
        assert NullableBy(b, p, s, q, v);
      }
    }
  }

  lemma NullableEnds(b: seq<Byte>, p: nat) returns (q: nat)
    requires p <= |b| && GetNullable(b[p..]).Ok?
    ensures p <= q <= |b| && GetNullable(b[p..]).value.1 == b[q..]
  {
    FlagByte(b, p);
    hide GetCString, GetNumber;
    q := CStringEnds(b, p + 1);
  }

  lemma {:induction false} TextsAre(b: seq<Byte>, p: nat, a: seq<Str>)
    requires p <= |b|
    ensures TextsIn(b, p, a) <==> GetAll(b[p..], |a|) == Ok(a)
    decreases |a|
  {
    if a != [] {
      hide GetCString, CTextAt;
      assert a == [a[0]] + a[1..];
      if TextsIn(b, p, a) {
        var r :| CTextAt(b, p, a[0], r) && TextsIn(b, r, a[1..]);
        CTextIsCString(b, p, a[0], r);
        TextsAre(b, r, a[1..]);
      }
      if GetAll(b[p..], |a|) == Ok(a) {
        var r := CStringEnds(b, p);
        TextsBack(b, p, a, r);
      }
    }
  }

  lemma {:induction false} TextsBack(b: seq<Byte>, p: nat, a: seq<Str>, r: nat)
    requires p <= |b| && a != [] && GetAll(b[p..], |a|) == Ok(a)
    requires p <= r <= |b| && GetCString(b[p..]).Ok? && GetCString(b[p..]).value.1 == b[r..]
    ensures TextsIn(b, p, a)
    decreases |a|, 0
  {
    hide GetCString, CTextAt;
    var v := GetCString(b[p..]).value.0;
    var tail := GetAll(b[r..], |a| - 1).value;
    assert a == [v] + tail;
    assert a[0] == v && a[1..] == tail;
    CTextIsCString(b, p, v, r);
    TextsAre(b, r, a[1..]);
  }

  lemma ArrayIs(b: seq<Byte>, p: nat, a: seq<Str>, q: nat)
    requires p <= |b|
    ensures ArrayAt(b, p, a, q) <==> q <= |b| && GetArray(b[p..]) == Ok((a, b[q..]))
  {
    if p + 4 <= |b| {
      NumberAt(b, p);
      hide GetNumber, GetString, GetAll, TextsIn;
      if ArrayAt(b, p, a, q) {
        var s := b[p + 8..q];
        TextIsString(b, p + 4, s, q);
        TextsAre(s, 0, a);
        assert s[0..] == s;
      }
      if q <= |b| && GetArray(b[p..]) == Ok((a, b[q..])) {
        var s := GetString(b[p + 4..]).value.0;
        TextIsString(b, p + 4, s, q);
        AllCount(s, U32At(b, p));
        TextsAre(s, 0, a);
        assert s[0..] == s;
      }
    }
  }

  lemma {:induction false} AllCount(s: seq<Byte>, n: nat)
    requires GetAll(s, n).Ok?
    ensures |GetAll(s, n).value| == n
    decreases n
  {
    hide GetCString;
    if n > 0 {
      AllCount(GetCString(s).value.1, n - 1);
    }
  }

  lemma ArrayEnds(b: seq<Byte>, p: nat) returns (q: nat)
    requires p <= |b| && GetArray(b[p..]).Ok?
    ensures p <= q <= |b| && GetArray(b[p..]).value.1 == b[q..]
  {
    NumberAt(b, p);
    hide GetString, GetNumber, GetAll;
    q := StringEnds(b, p + 4);
  }

  // ------------------------------------------------------------------ group by group

  lemma FlagsAre(b: seq<Byte>, f: Flags)
    ensures FlagsAt(b, f) <==> |b| >= 9 && GetFlags(b) == Ok((f, b[9..]))
  {
  }

  lemma WideAt(b: seq<Byte>, p: nat)
    requires p + 8 <= |b|
    ensures GetNumber(b[p..], 8) == Ok((U64At(b, p), b[p + 8..]))
  {
    hide U32At, Power;
    var s := b[p..p + 8];
    assert b[p..][..8] == s && b[p..][8..] == b[p + 8..];
    ValueEight(s);
    assert s[..4] == b[p..p + 4] && s[4..] == b[p + 4..p + 8];
    NumberAt(b, p);
    NumberAt(b, p + 4);
    hide Value;
  }

  lemma TunAt(b: seq<Byte>, p: nat)
    requires p + 5 <= |b|
    ensures GetTun(b[p..]) == Ok((if b[p] != 0 then -1 else ToInt(U32At(b, p + 1)), b[p + 5..]))
  {
    hide U32At, GetNumber, ToInt;
    FlagByte(b, p);
    NumberAt(b, p + 1);
  }

  lemma ShortNumbers(b: seq<Byte>)
    requires |b| < 13
    ensures GetNumbers(b).Err?
  {
    hide Value;
  }

  lemma NumbersAre(b: seq<Byte>, x: nat, tun: int)
    requires |b| >= 9
    ensures NumbersAt(b, x, tun) <==> |b| >= 22 && GetNumbers(b[9..]) == Ok(((x, tun), b[22..]))
  {
    hide U32At, U64At, GetNumber, GetTun;
    if |b| >= 22 {
      WideAt(b, 9);
      TunAt(b, 17);
    }
  }

  lemma StringsAre(b: seq<Byte>, p: nat, o: Options, q: nat)
    requires p <= |b|
    ensures StringsAt(b, p, o, q) <==>
              q <= |b| && GetStrings(b[p..]) == Ok((Four(o.certPrincipals, o.forceCommand, o.requiredFromHostCert,
                                                         o.requiredFromHostKeys), b[q..]))
  {
    hide NullableAt, GetNullable;
    if StringsAt(b, p, o, q) {
      var p1, p2, p3 :|
        && NullableAt(b, p, o.certPrincipals, p1) && NullableAt(b, p1, o.forceCommand, p2)
        && NullableAt(b, p2, o.requiredFromHostCert, p3) && NullableAt(b, p3, o.requiredFromHostKeys, q);
      NullableIs(b, p, o.certPrincipals, p1);
      NullableIs(b, p1, o.forceCommand, p2);
      NullableIs(b, p2, o.requiredFromHostCert, p3);
      NullableIs(b, p3, o.requiredFromHostKeys, q);
    }
    if q <= |b| && GetStrings(b[p..]) == Ok((Four(o.certPrincipals, o.forceCommand, o.requiredFromHostCert,
                                                  o.requiredFromHostKeys), b[q..])) {
      var p1 := NullableEnds(b, p);
      var p2 := NullableEnds(b, p1);
      var p3 := NullableEnds(b, p2);
      NullableIs(b, p, o.certPrincipals, p1);
      NullableIs(b, p1, o.forceCommand, p2);
      NullableIs(b, p2, o.requiredFromHostCert, p3);
      NullableIs(b, p3, o.requiredFromHostKeys, q);
    }
  }

  lemma StringsEnd(b: seq<Byte>, p: nat) returns (q: nat)
    requires p <= |b| && GetStrings(b[p..]).Ok?
    ensures p <= q <= |b| && GetStrings(b[p..]).value.1 == b[q..]
  {
    hide GetNullable;
    q := NullableEnds(b, p);
    q := NullableEnds(b, q);
    q := NullableEnds(b, q);
    q := NullableEnds(b, q);
  }

  lemma ArraysAre(b: seq<Byte>, p: nat, o: Options, q: nat)
    requires p <= |b|
    ensures ArraysAt(b, p, o, q) <==>
              q <= |b| && GetArrays(b[p..]) == Ok((Three(o.env, o.permitOpen, o.permitListen), b[q..]))
  {
    hide ArrayAt, GetArray;
    if ArraysAt(b, p, o, q) {
      var p1, p2 :| ArrayAt(b, p, o.env, p1) && ArrayAt(b, p1, o.permitOpen, p2) && ArrayAt(b, p2, o.permitListen, q);
      ArrayIs(b, p, o.env, p1);
      ArrayIs(b, p1, o.permitOpen, p2);
      ArrayIs(b, p2, o.permitListen, q);
    }
    if q <= |b| && GetArrays(b[p..]) == Ok((Three(o.env, o.permitOpen, o.permitListen), b[q..])) {
      var p1 := ArrayEnds(b, p);
      var p2 := ArrayEnds(b, p1);
      ArrayIs(b, p, o.env, p1);
      ArrayIs(b, p1, o.permitOpen, p2);
      ArrayIs(b, p2, o.permitListen, q);
    }
  }

  // ------------------------------------------------------------------------- results

  /** The parser takes a record off the front of b exactly where there is one. */
  lemma DecodesWhatIsThere(b: seq<Byte>, o: Options, end: nat)
    ensures RecordIn(b, o, end) <==> end <= |b| && Decode(b) == Ok((o, b[end..]))
  {
    hide FlagsAt, NumbersAt, StringsAt, ArraysAt, GetFlags, GetNumbers, GetStrings, GetArrays;
    if RecordIn(b, o, end) {
      FlagsAre(b, o.flags);
      NumbersAre(b, o.validBefore, o.forceTunDevice);
      var p :| StringsAt(b, 22, o, p) && ArraysAt(b, p, o, end);
      StringsAre(b, 22, o, p);
      ArraysAre(b, p, o, end);
    }
    if end <= |b| && Decode(b) == Ok((o, b[end..])) {
      RecordBack(b, o, end);
    }
  }

  lemma RecordBack(b: seq<Byte>, o: Options, end: nat)
    requires end <= |b| && Decode(b) == Ok((o, b[end..]))
    ensures RecordIn(b, o, end)
  {
    hide FlagsAt, NumbersAt, StringsAt, ArraysAt, GetStrings, GetArrays, GetFlags, GetNumbers;
    FlagsFront(b);
    FlagsAre(b, o.flags);
    NumbersFront(b);
    NumbersAre(b, o.validBefore, o.forceTunDevice);
    var p := StringsEnd(b, 22);
    StringsAre(b, 22, o, p);
    ArraysAre(b, p, o, end);
  }

  lemma FlagsFront(b: seq<Byte>)
    requires GetFlags(b).Ok?
    ensures |b| >= 9 && GetFlags(b).value.1 == b[9..]
  {
  }

  lemma FrontNumbers(b: seq<Byte>)
    requires |b| >= 22
    ensures GetNumbers(b[9..]).Ok? && GetNumbers(b[9..]).value.1 == b[22..]
  {
    hide U32At, U64At, GetNumber, GetTun;
    WideAt(b, 9);
    TunAt(b, 17);
  }

  lemma NumbersFront(b: seq<Byte>)
    requires |b| >= 9 && GetNumbers(b[9..]).Ok?
    ensures |b| >= 22 && GetNumbers(b[9..]).value.1 == b[22..]
  {
    hide GetNumbers, U32At, U64At;
    if |b| < 22 {
      ShortNumbers(b[9..]);
      assert false;
    }
    FrontNumbers(b);
  }

  /** Where the printer puts a record that fits: its fields as the wire carries them, from
      the first byte to the last. */
  lemma EncodesInPlace(o: Options, rest: seq<Byte>)
    requires Representable(o) && |Encode(o)| <= MAX_SIZE
    ensures RecordIn(Encode(o) + rest, Carried(o), |Encode(o)|)
  {
    hide RecordIn, Decode, Encode, Carried;
    var b := Encode(o) + rest;
    RoundTrip(o, rest);
    assert b[|Encode(o)|..] == rest;
    DecodesWhatIsThere(b, Carried(o), |Encode(o)|);
  }
}
