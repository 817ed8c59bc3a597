/** Packing values into a buffer and taking them out again, driven by a format string (RFC 4251, section 5). */
module Wire {
  import opened Arith
  import opened Bytes
  import opened Mpint

  const SIZE_MAX := 0xffff_ffff_ffff_ffff
  const U32MOD := 0x1_0000_0000

  type u16 = x: int | 0 <= x < 0x1_0000
  type u64 = x: int | 0 <= x < 0x1_0000_0000_0000_0000
  /** Anything whose length fits the 32-bit length field. */
  type bytes = s: seq<byte> | |s| < 0x1_0000_0000

  /** The values a format letter stands for: `b w d q S s P B t`. */
  datatype Arg =
    | U8(b: byte)
    | U16(w: u16)
    | U32(d: u32)
    | U64(q: u64)
    | SshString(str: bytes)
    | CString(chars: bytes)
    | Raw(raw: bytes)
    | Big(n: nat)
    | Text(text: bytes)

  function Letter(a: Arg): char {
    match a
    case U8(_) => 'b'
    case U16(_) => 'w'
    case U32(_) => 'd'
    case U64(_) => 'q'
    case SshString(_) => 'S'
    case CString(_) => 's'
    case Raw(_) => 'P'
    case Big(_) => 'B'
    case Text(_) => 't'
  }

  const LETTERS := "bwdqSsPBt"

  /** The arguments are those the letters ask for; what stands for an unknown letter does not matter. */
  predicate Agree(format: string, args: seq<Arg>) {
    |format| == |args| && forall i :: 0 <= i < |args| && format[i] in LETTERS ==> Letter(args[i]) == format[i]
  }

  /** How many C arguments a format takes: `P` comes with its length. */
  function ArgCount(format: string): nat {
    if format == "" then 0 else (if format[0] == 'P' then 2 else 1) + ArgCount(format[1..])
  }

  // Packing

  /** The bytes of one value; zero and oversized big numbers have none, nor has a string beyond the size limit. */
  function Encode(a: Arg): Option<seq<byte>> {
    match a
    case U8(b) => Some([b])
    case U16(w) => Some(BigEndian(w, 2))
    case U32(d) => Some(BigEndian(d, 4))
    case U64(q) => Some(BigEndian(q, 8))
    case SshString(s) => if |s| <= STRING_SIZE_MAX then Some(BigEndian(|s|, 4) + s) else None
    case CString(s) => Some(BigEndian(|s|, 4) + s)
    case Raw(s) => Some(s)
    case Big(n) =>
      var m := MakeBignumString(n);
      if m.Some? then Some(BigEndian(|m.value|, 4) + m.value) else None
    case Text(s) => Some(s)
  }

  function EncodeAll(format: string, args: seq<Arg>): Option<seq<byte>>
    requires |format| == |args|
  {
    if format == "" then Some([])
    else if format[0] !in LETTERS then None
    else
      var x, xs := Encode(args[0]), EncodeAll(format[1..], args[1..]);
      if x.None? || xs.None? then None else Some(x.value + xs.value)
  }

  /** What the packer reserves for a value before it writes anything. */
  function NeededSize(a: Arg): nat {
    match a
    case U8(_) => 1
    case U16(_) => 2
    case U32(_) => 4
    case U64(_) => 8
    case SshString(s) => 4 + |s|
    case CString(s) => 4 + |s|
    case Raw(s) => |s|
    case Big(_) => 64
    case Text(s) => |s|
  }

  function NeededAll(format: string, args: seq<Arg>): nat
    requires |format| == |args|
  {
    if format == "" || format[0] !in LETTERS then 0 else NeededSize(args[0]) + NeededAll(format[1..], args[1..])
  }

  // Unpacking

  datatype Decoded<+T> = Decoded(ok: bool, value: T, rest: seq<byte>)

  function TakeString(bs: seq<byte>): Decoded<seq<byte>> {
    if |bs| < 4 then Decoded(false, [], bs)
    else
      var len, tail := Value(bs[..4]), bs[4..];
      if len <= |tail| && len <= STRING_SIZE_MAX then Decoded(true, tail[..len], tail[len..])
      else Decoded(false, [], tail)
  }

  /** The unsigned comparison with the length of the whole buffer less one; with an empty buffer it never fails. */
  predicate ShorterThanAll(len: nat, maxLen: nat) {
    len <= if maxLen == 0 then SIZE_MAX else maxLen - 1
  }

  /**
   * One value off the front of `bs`, as `letter` says; `len` is the length a `P` asks for and `maxLen` how much
   * was unread when the call began.
   */
  function Decode(letter: char, len: nat, bs: seq<byte>, maxLen: nat): Decoded<Arg> {
    var none := U8(0);
    if letter == 'b' then
      if |bs| >= 1 then Decoded(true, U8(bs[0]), bs[1..]) else Decoded(false, none, bs)
    else if letter == 'w' then
      if |bs| >= 2 then FixedRange(bs[..2]); Decoded(true, U16(Value(bs[..2])), bs[2..]) else Decoded(false, none, bs)
    else if letter == 'd' then
      if |bs| >= 4 then FixedRange(bs[..4]); Decoded(true, U32(Value(bs[..4])), bs[4..]) else Decoded(false, none, bs)
    else if letter == 'q' then
      if |bs| >= 8 then FixedRange(bs[..8]); Decoded(true, U64(Value(bs[..8])), bs[8..]) else Decoded(false, none, bs)
    else if letter == 'S' || letter == 'B' then
      var s := TakeString(bs);
      Decoded(s.ok, if letter == 'S' then SshString(s.value) else Big(MakeStringBn(s.value)), s.rest)
    else if letter == 's' then
      if |bs| < 4 then Decoded(false, none, bs)
      else
        var n, tail := Value(bs[..4]), bs[4..];
        FixedRange(bs[..4]);
        if ShorterThanAll(n, maxLen) && n <= |tail| then Decoded(true, CString(tail[..n]), tail[n..])
        else Decoded(false, none, tail)
    else if letter == 'P' && ShorterThanAll(len, maxLen) && len <= |bs| && len < U32MOD then
      Decoded(true, Raw(bs[..len]), bs[len..])
    else Decoded(false, none, bs)
  }

  lemma FixedRange(s: seq<byte>)
    requires |s| == 2 || |s| == 4 || |s| == 8
    ensures |s| == 2 ==> Value(s) < 0x1_0000
    ensures |s| == 4 ==> Value(s) < 0x1_0000_0000
    ensures |s| == 8 ==> Value(s) < 0x1_0000_0000_0000_0000
  {
    BigEndianOfValue(s);
    PowersOf256();
  }

  lemma PowersOf256()
    ensures Pow(256, 2) == 0x1_0000 && Pow(256, 4) == 0x1_0000_0000 && Pow(256, 8) == 0x1_0000_0000_0000_0000
  {
    assert Pow(256, 2) == 0x1_0000;
    PowAdd(256, 2, 2);
    PowAdd(256, 4, 4);
  }

  function DecodeAll(format: string, lens: seq<nat>, bs: seq<byte>, maxLen: nat): Decoded<seq<Arg>>
    requires |lens| == |format|
  {
    if format == "" then Decoded(true, [], bs)
    else
      var x := Decode(format[0], lens[0], bs, maxLen);
      if !x.ok then Decoded(false, [], x.rest)
      else
        var xs := DecodeAll(format[1..], lens[1..], x.rest, maxLen);
        Decoded(xs.ok, [x.value] + xs.value, xs.rest)
  }

  // What the caller sees of a C string: the bytes before the first zero byte

  function UpToNul(s: seq<byte>): (r: seq<byte>)
    ensures |r| <= |s|
  {
    if s == [] || s[0] == 0 then [] else [s[0]] + UpToNul(s[1..])
  }

  lemma {:induction false} UpToNulSame(s: seq<byte>)
    ensures UpToNul(s) == s <==> 0 !in s
  {
    if s != [] {
      UpToNulSame(s[1..]);
      assert s == [s[0]] + s[1..];
      assert 0 in s <==> s[0] == 0 || 0 in s[1..];
    }
  }

  /** The length of an unpacked C string is not handed out, and it is packed up to its first zero byte. */
  function Seen(a: Arg): (r: Arg)
    ensures Letter(r) == Letter(a)
  {
    if a.CString? then CString(UpToNul(a.chars)) else a
  }

  function SeenAll(args: seq<Arg>): seq<Arg> {
    seq(|args|, i requires 0 <= i < |args| => Seen(args[i]))
  }

  /** No C string has a zero byte before its terminator. */
  predicate Terminated(args: seq<Arg>) {
    forall i :: 0 <= i < |args| && args[i].CString? ==> 0 !in args[i].chars
  }

  lemma SeenSame(args: seq<Arg>)
    requires Terminated(args)
    ensures SeenAll(args) == args
  {
    forall i | 0 <= i < |args| && args[i].CString?
      ensures Seen(args[i]) == args[i]
    {
      UpToNulSame(args[i].chars);
    }
  }

  // Unpacking undoes packing

  /** The lengths an unpacking call passes for the raw fields of `args`. */
  function RawLengths(args: seq<Arg>): seq<nat> {
    seq(|args|, i requires 0 <= i < |args| => if args[i].Raw? then |args[i].raw| else 0)
  }

  lemma StringTaken(s: bytes, rest: seq<byte>)
    ensures (BigEndian(|s|, 4) + s + rest)[..4] == BigEndian(|s|, 4)
    ensures (BigEndian(|s|, 4) + s + rest)[4..] == s + rest
    ensures Value(BigEndian(|s|, 4)) == |s|
  {
    PowersOf256();
    ValueOfBigEndian(|s|, 4);
    Associate<byte>(BigEndian(|s|, 4), s, rest);
  }

  lemma StringBack(s: bytes, rest: seq<byte>)
    ensures var tail: seq<byte> := s + rest;
      tail[..|s|] == s && tail[|s|..] == rest
  {
  }

  lemma StringRoundTrip(s: bytes, rest: seq<byte>)
    requires |s| <= STRING_SIZE_MAX
    ensures TakeString(BigEndian(|s|, 4) + s + rest) == Decoded(true, s, rest)
  {
    StringTaken(s, rest);
    StringBack(s, rest);
  }

  /** The result of unpacking what was packed: only a raw field as long as everything unread does not come back. */
  function Back(a: Arg, x: seq<byte>, rest: seq<byte>, maxLen: nat): Decoded<Arg> {
    if a.Raw? && |a.raw| == maxLen > 0 then Decoded(false, U8(0), x + rest) else Decoded(true, a, rest)
  }

  lemma ByteRoundTrip(b: byte, rest: seq<byte>, maxLen: nat)
    ensures Decode('b', 0, [b] + rest, maxLen) == Decoded(true, U8(b), rest)
  {
    assert ([b] + rest)[1..] == rest;
  }

  lemma WordRoundTrip(w: u16, x: seq<byte>, rest: seq<byte>, maxLen: nat)
    requires |x| == 2 && Value(x) == w
    ensures Decode('w', 0, x + rest, maxLen) == Decoded(true, U16(w), rest)
  {
    assert (x + rest)[..2] == x && (x + rest)[2..] == rest;
  }

  lemma DwordRoundTrip(d: u32, x: seq<byte>, rest: seq<byte>, maxLen: nat)
    requires |x| == 4 && Value(x) == d
    ensures Decode('d', 0, x + rest, maxLen) == Decoded(true, U32(d), rest)
  {
    assert (x + rest)[..4] == x && (x + rest)[4..] == rest;
  }

  lemma QwordRoundTrip(q: u64, x: seq<byte>, rest: seq<byte>, maxLen: nat)
    requires |x| == 8 && Value(x) == q
    ensures Decode('q', 0, x + rest, maxLen) == Decoded(true, U64(q), rest)
  {
    assert (x + rest)[..8] == x && (x + rest)[8..] == rest;
  }

  lemma CStringRoundTrip(s: bytes, rest: seq<byte>, maxLen: nat)
    requires |BigEndian(|s|, 4) + s + rest| <= maxLen
    ensures Decode('s', 0, BigEndian(|s|, 4) + s + rest, maxLen) == Decoded(true, CString(s), rest)
  {
    StringTaken(s, rest);
    StringBack(s, rest);
  }

  lemma RawRoundTrip(s: bytes, rest: seq<byte>, maxLen: nat)
    requires |s + rest| <= maxLen
    ensures Decode('P', |s|, s + rest, maxLen) == Back(Raw(s), s, rest, maxLen)
  {
    StringBack(s, rest);
  }

  lemma BigRoundTrip(n: nat, rest: seq<byte>, maxLen: nat)
    requires MakeBignumString(n).Some?
    ensures var m := MakeBignumString(n).value;
      Decode('B', 0, BigEndian(|m|, 4) + m + rest, maxLen) == Decoded(true, Big(n), rest)
  {
    MpintLength(n);
    MpintRoundTrip(n);
    StringRoundTrip(MakeBignumString(n).value, rest);
  }

  /** The value of a packed machine word. */
  lemma PackedWord(v: nat, width: nat)
    requires (width == 2 && v < 0x1_0000) || (width == 4 && v < 0x1_0000_0000)
          || (width == 8 && v < 0x1_0000_0000_0000_0000)
    ensures Value(BigEndian(v, width)) == v
  {
    PowersOf256();
    ValueOfBigEndian(v, width);
  }

  lemma NumberRoundTrip(a: Arg, x: seq<byte>, rest: seq<byte>, maxLen: nat)
    requires (a.U8? || a.U16? || a.U32? || a.U64?) && Encode(a) == Some(x)
    ensures Decode(Letter(a), 0, x + rest, maxLen) == Decoded(true, a, rest)
  {
    match a
    case U8(b) => ByteRoundTrip(b, rest, maxLen);
    case U16(w) => PackedWord(w, 2); WordRoundTrip(w, x, rest, maxLen);
    case U32(d) => PackedWord(d, 4); DwordRoundTrip(d, x, rest, maxLen);
    case U64(q) => PackedWord(q, 8); QwordRoundTrip(q, x, rest, maxLen);
  }

  lemma SshStringRoundTrip(s: bytes, rest: seq<byte>, maxLen: nat)
    requires |s| <= STRING_SIZE_MAX
    ensures Decode('S', 0, BigEndian(|s|, 4) + s + rest, maxLen) == Decoded(true, SshString(s), rest)
  {
    StringRoundTrip(s, rest);
  }

  /** One value: it comes back, and nothing after it is touched. */
  lemma OneRoundTrip(a: Arg, rest: seq<byte>, maxLen: nat)
    requires !a.Text? && Encode(a).Some? && |Encode(a).value + rest| <= maxLen
    ensures Decode(Letter(a), if a.Raw? then |a.raw| else 0, Encode(a).value + rest, maxLen)
         == Back(a, Encode(a).value, rest, maxLen)
  {
    var x := Encode(a).value;
    if a.U8? || a.U16? || a.U32? || a.U64? {
      NumberRoundTrip(a, x, rest, maxLen);
      return;
    }
    match a
    case SshString(s) => SshStringRoundTrip(s, rest, maxLen);
    case CString(s) => CStringRoundTrip(s, rest, maxLen);
    case Raw(s) => RawRoundTrip(s, rest, maxLen);
    case Big(n) => BigRoundTrip(n, rest, maxLen);
    case _ =>
  }

  /** No raw field is as long as the whole of a non-empty buffer. */
  predicate RawFits(args: seq<Arg>, maxLen: nat) {
    forall i :: 0 <= i < |args| && args[i].Raw? ==> |args[i].raw| < maxLen || maxLen == 0
  }

  lemma {:induction false} RoundTripFrom(format: string, args: seq<Arg>, suffix: seq<byte>, maxLen: nat)
    requires Agree(format, args) && EncodeAll(format, args).Some? && 't' !in format
    requires |EncodeAll(format, args).value + suffix| <= maxLen
    ensures var d := DecodeAll(format, RawLengths(args), EncodeAll(format, args).value + suffix, maxLen);
      && (d.ok <==> RawFits(args, maxLen))
      && (d.ok ==> d.value == args && d.rest == suffix)
  {
    if format == "" {
      assert [] + suffix == suffix;
    } else {
      var x, xs := Encode(args[0]).value, EncodeAll(format[1..], args[1..]).value;
      Associate(x, xs, suffix);
      OneRoundTrip(args[0], xs + suffix, maxLen);
      assert RawFits(args, maxLen)
        <==> (!(args[0].Raw? && |args[0].raw| == maxLen > 0) && RawFits(args[1..], maxLen)) by {
        RawFitsSplit(args, maxLen);
      }
      assert RawLengths(args)[1..] == RawLengths(args[1..]);
      assert args == [args[0]] + args[1..];
      RoundTripFrom(format[1..], args[1..], suffix, maxLen);
    }
  }

  lemma RawFitsSplit(args: seq<Arg>, maxLen: nat)
    requires args != []
    ensures RawFits(args, maxLen) <==>
      (args[0].Raw? ==> |args[0].raw| < maxLen || maxLen == 0) && RawFits(args[1..], maxLen)
  {
    if RawFits(args[1..], maxLen) {
      forall i | 0 < i < |args| && args[i].Raw? ensures |args[i].raw| < maxLen || maxLen == 0 {
        assert args[i] == args[1..][i - 1];
      }
    }
  }

  /**
   * Unpacking what was packed gives the same values, consumes exactly the packed bytes and leaves what follows,
   * exactly when no raw field is as long as everything that is unread.
   */
  lemma RoundTrip(format: string, args: seq<Arg>, suffix: seq<byte>)
    requires Agree(format, args) && EncodeAll(format, args).Some? && 't' !in format
    ensures var bs := EncodeAll(format, args).value + suffix;
      var d := DecodeAll(format, RawLengths(args), bs, |bs|);
      && (d.ok <==> RawFits(args, |bs|))
      && (d.ok ==> d.value == args && d.rest == suffix)
      && (d.ok && Terminated(args) ==> SeenAll(d.value) == args)
  {
    if Terminated(args) {
      SeenSame(args);
    }
    RoundTripFrom(format, args, suffix, |EncodeAll(format, args).value + suffix|);
  }

  /** Equal bytes come from equal values: a packed prefix can be split off in one way only. */
  lemma UniquelyDecodable(format: string, a: seq<Arg>, b: seq<Arg>, s: seq<byte>, t: seq<byte>)
    requires Agree(format, a) && Agree(format, b) && 't' !in format && RawLengths(a) == RawLengths(b)
    requires EncodeAll(format, a).Some? && EncodeAll(format, b).Some?
    requires EncodeAll(format, a).value + s == EncodeAll(format, b).value + t
    ensures a == b && s == t
  {
    var bs := EncodeAll(format, a).value + s;
    RoundTripFrom(format, a, s, |bs| + U32MOD);
    RoundTripFrom(format, b, t, |bs| + U32MOD);
  }

  /** Packing in two calls is packing in one. */
  lemma {:induction false} PackingComposes(f: string, g: string, a: seq<Arg>, b: seq<Arg>)
    requires |f| == |a| && |g| == |b|
    ensures var x, y, z := EncodeAll(f, a), EncodeAll(g, b), EncodeAll(f + g, a + b);
      && (z.Some? <==> x.Some? && y.Some?)
      && (z.Some? ==> z.value == x.value + y.value)
  {
    if f == "" {
      assert f + g == g && a + b == b;
      var y := EncodeAll(g, b);
      assert y.Some? ==> [] + y.value == y.value;
    } else {
      assert (f + g)[1..] == f[1..] + g && (a + b)[1..] == a[1..] + b;
      PackingComposes(f[1..], g, a[1..], b);
    }
  }

  // Packing undoes unpacking

  lemma OneDecodedIsEncoded(letter: char, len: nat, bs: seq<byte>, maxLen: nat)
    requires letter != 'B' && Decode(letter, len, bs, maxLen).ok
    ensures var x := Decode(letter, len, bs, maxLen);
      && letter in LETTERS && Letter(x.value) == letter && Encode(x.value).Some? && Encode(x.value).value + x.rest == bs
  {
    if letter == 'w' {
      FixedSplit(bs, 2);
    } else if letter == 'd' {
      FixedSplit(bs, 4);
    } else if letter == 'q' {
      FixedSplit(bs, 8);
    } else if letter == 'S' || letter == 's' {
      StringSplit(bs);
    } else if letter == 'b' {
      assert [bs[0]] + bs[1..] == bs;
    } else {
      assert bs[..len] + bs[len..] == bs;
    }
  }

  lemma FixedSplit(bs: seq<byte>, width: nat)
    requires width <= |bs|
    ensures BigEndian(Value(bs[..width]), width) + bs[width..] == bs
  {
    BigEndianOfValue(bs[..width]);
  }

  lemma StringSplit(bs: seq<byte>)
    requires |bs| >= 4 && Value(bs[..4]) <= |bs| - 4
    ensures var n, tail := Value(bs[..4]), bs[4..];
      BigEndian(n, 4) + tail[..n] + tail[n..] == bs
  {
    var n, tail := Value(bs[..4]), bs[4..];
    FixedSplit(bs, 4);
    assert tail[..n] + tail[n..] == tail;
    Associate(BigEndian(n, 4), tail[..n], tail[n..]);
  }

  /**
   * The field in front is as the packer would write it: a big number without superfluous padding, a C string without a
   * zero byte.
   */
  predicate CanonicalHead(letter: char, bs: seq<byte>) {
    && (letter == 'B' && TakeString(bs).ok ==>
          MakeBignumString(Value(TakeString(bs).value)) == Some(TakeString(bs).value))
    && (letter == 's' && |bs| >= 4 && Value(bs[..4]) <= |bs| - 4 ==> 0 !in bs[4..][..Value(bs[..4])])
  }

  predicate Canonical(format: string, lens: seq<nat>, bs: seq<byte>, maxLen: nat)
    requires |lens| == |format|
  {
    format == "" ||
    (CanonicalHead(format[0], bs)
      && Canonical(format[1..], lens[1..], Decode(format[0], lens[0], bs, maxLen).rest, maxLen))
  }

  /** The encoding of `a`, if it has one, and `rest` are `bs`. */
  ghost predicate Splits(a: Option<seq<byte>>, rest: seq<byte>, bs: seq<byte>) {
    a.Some? && a.value + rest == bs
  }

  /** The encoding of what the caller sees is at the front of the bytes exactly if the field is canonical. */
  ghost predicate HeadExactly(letter: char, a: Arg, rest: seq<byte>, bs: seq<byte>) {
    && (Encode(Seen(a)).Some? && Encode(Seen(a)).value <= bs <==> CanonicalHead(letter, bs))
    && (CanonicalHead(letter, bs) ==> Splits(Encode(Seen(a)), rest, bs))
  }

  lemma OneDecodedExactly(letter: char, len: nat, bs: seq<byte>, maxLen: nat)
    requires Decode(letter, len, bs, maxLen).ok
    ensures var x := Decode(letter, len, bs, maxLen);
      letter in LETTERS && Letter(x.value) == letter && HeadExactly(letter, x.value, x.rest, bs)
  {
    if letter == 'B' {
      BigDecodedExactly(bs);
    } else if letter == 's' {
      CStringDecodedExactly(bs);
    } else {
      OneDecodedIsEncoded(letter, len, bs, maxLen);
    }
  }

  lemma CStringDecodedExactly(bs: seq<byte>)
    requires |bs| >= 4 && Value(bs[..4]) <= |bs| - 4 && Value(bs[..4]) < U32MOD
    ensures var n, tail := Value(bs[..4]), bs[4..];
      HeadExactly('s', CString(tail[..n]), tail[n..], bs)
  {
    var n, tail := Value(bs[..4]), bs[4..];
    var s: bytes := tail[..n];
    StringSplit(bs);
    UpToNulSame(s);
    SameString(UpToNul(s), s, tail[n..]);
  }

  lemma BigDecodedExactly(bs: seq<byte>)
    requires TakeString(bs).ok
    ensures var t := TakeString(bs);
      HeadExactly('B', Big(Value(t.value)), t.rest, bs)
  {
    var t := TakeString(bs);
    StringSplit(bs);
    BigAtFront(t.value, t.rest);
  }

  /** A big number is encoded as the bytes it was read from exactly if these are its string. */
  lemma BigAtFront(s: bytes, rest: seq<byte>)
    ensures var e := Encode(Big(Value(s)));
      (e.Some? && e.value <= BigEndian(|s|, 4) + s + rest) <==> MakeBignumString(Value(s)) == Some(s)
  {
    var m := MakeBignumString(Value(s));
    if m.Some? {
      MpintLength(Value(s));
      SameString(m.value, s, rest);
    }
  }

  lemma SameHead(h: seq<byte>, m: seq<byte>, k: seq<byte>, s: seq<byte>, rest: seq<byte>)
    requires |h| == |k| && h + m <= k + s + rest
    ensures h == k && (|m| == |s| ==> m == s)
  {
    var x, y := h + m, k + s + rest;
    assert h == x[..|h|] == y[..|h|] == k;
    if |m| == |s| {
      assert m == x[|h|..] == y[|h|..|h| + |m|] == s;
    }
  }

  /** Only the string itself, with its length, is at the front of its encoding. */
  lemma SameString(m: bytes, s: bytes, rest: seq<byte>)
    ensures BigEndian(|m|, 4) + m <= BigEndian(|s|, 4) + s + rest <==> m == s
  {
    var h, k := BigEndian(|m|, 4), BigEndian(|s|, 4);
    StringTaken(m, rest);
    StringTaken(s, rest);
    if h + m <= k + s + rest {
      SameHead(h, m, k, s, rest);
    }
  }

  lemma Front(y: seq<byte>, ys: seq<byte>, rest: seq<byte>, bs: seq<byte>)
    ensures y + ys + rest == bs ==> y <= bs
  {
    Associate(y, ys, rest);
  }

  /** Splitting two encodings off one after the other. */
  lemma JoinSplits(y: seq<byte>, ys: seq<byte>, rest: seq<byte>, tail: seq<byte>, bs: seq<byte>)
    requires y + tail == bs
    ensures y + ys + rest == bs <==> ys + rest == tail
  {
    Associate(y, ys, rest);
    if y + (ys + rest) == y + tail {
      assert (y + (ys + rest))[|y|..] == ys + rest && (y + tail)[|y|..] == tail;
    }
  }

  /**
   * Any format: unpacking and packing again what the caller sees gives the bytes that were taken if and only if every
   * big number came in the encoding the packer uses and no C string held a zero byte.
   */
  lemma {:induction false} DecodedExactly(format: string, lens: seq<nat>, bs: seq<byte>, maxLen: nat)
    requires |lens| == |format| && DecodeAll(format, lens, bs, maxLen).ok
    ensures var d := DecodeAll(format, lens, bs, maxLen);
      && Agree(format, d.value) && Agree(format, SeenAll(d.value))
      && (Splits(EncodeAll(format, SeenAll(d.value)), d.rest, bs) <==> Canonical(format, lens, bs, maxLen))
  {
    if format == "" {
      assert [] + bs == bs;
    } else {
      var x := Decode(format[0], lens[0], bs, maxLen);
      var d, ds := DecodeAll(format, lens, bs, maxLen), DecodeAll(format[1..], lens[1..], x.rest, maxLen);
      OneDecodedExactly(format[0], lens[0], bs, maxLen);
      DecodedExactly(format[1..], lens[1..], x.rest, maxLen);
      assert d.value[1..] == ds.value && SeenAll(d.value)[1..] == SeenAll(ds.value);
      var y, ys := Encode(Seen(x.value)), EncodeAll(format[1..], SeenAll(ds.value));
      if y.Some? && ys.Some? {
        Front(y.value, ys.value, d.rest, bs);
        if CanonicalHead(format[0], bs) {
          JoinSplits(y.value, ys.value, d.rest, x.rest, bs);
        }
      }
    }
  }

  /** Without big numbers: what the unpacker accepts is the packing of what the caller sees, if no C string is cut. */
  lemma {:induction false} DecodedIsEncoded(format: string, lens: seq<nat>, bs: seq<byte>, maxLen: nat)
    requires |lens| == |format| && 'B' !in format && DecodeAll(format, lens, bs, maxLen).ok
    requires Terminated(DecodeAll(format, lens, bs, maxLen).value)
    ensures var d := DecodeAll(format, lens, bs, maxLen);
      Agree(format, d.value) && Splits(EncodeAll(format, SeenAll(d.value)), d.rest, bs)
  {
    DecodedExactly(format, lens, bs, maxLen);
    TerminatedIsCanonical(format, lens, bs, maxLen);
  }

  lemma {:induction false} TerminatedIsCanonical(format: string, lens: seq<nat>, bs: seq<byte>, maxLen: nat)
    requires |lens| == |format| && 'B' !in format && DecodeAll(format, lens, bs, maxLen).ok
    requires Terminated(DecodeAll(format, lens, bs, maxLen).value)
    ensures Canonical(format, lens, bs, maxLen)
  {
    if format != "" {
      var x := Decode(format[0], lens[0], bs, maxLen);
      var d, ds := DecodeAll(format, lens, bs, maxLen), DecodeAll(format[1..], lens[1..], x.rest, maxLen);
      assert d.value[0] == x.value;
      assert forall i :: 0 <= i < |ds.value| ==> ds.value[i] == d.value[i + 1];
      TerminatedIsCanonical(format[1..], lens[1..], x.rest, maxLen);
    }
  }

  lemma {:induction false} UpToFirst(s: seq<byte>, t: seq<byte>)
    requires 0 !in s
    ensures UpToNul(s + [0] + t) == s
  {
    var whole := s + [0] + t;
    if s != [] {
      assert whole[1..] == s[1..] + [0] + t;
      UpToFirst(s[1..], t);
    }
  }

  lemma OneString(a: Arg)
    requires a.CString?
    ensures EncodeAll("s", [a]) == Encode(a)
  {
    assert "s"[1..] == "" && [a][1..] == [];
    assert EncodeAll("", []) == Some([]);
    assert Encode(a).value + [] == Encode(a).value;
  }

  /** A string that holds a zero byte is accepted whole, and packed again without it and what follows it. */
  lemma ZeroCutsString(s: seq<byte>, t: seq<byte>)
    requires 0 !in s && |s + [0] + t| < U32MOD
    ensures var whole := s + [0] + t;
      var bs := BigEndian(|whole|, 4) + whole;
      var d := DecodeAll("s", [0], bs, |bs|);
      && d.ok && d.value == [CString(whole)] && d.rest == []
      && EncodeAll("s", SeenAll(d.value)) == Some(BigEndian(|s|, 4) + s)
  {
    var whole: bytes := s + [0] + t;
    var bs := BigEndian(|whole|, 4) + whole;
    assert bs + [] == bs;
    CStringRoundTrip(whole, [], |bs|);
    OneDecoded(bs, |bs|, CString(whole));
    UpToFirst(s, t);
    assert SeenAll([CString(whole)]) == [CString(s)];
    OneString(CString(s));
  }

  lemma OneDecoded(bs: seq<byte>, maxLen: nat, a: Arg)
    requires Decode('s', 0, bs, maxLen) == Decoded(true, a, [])
    ensures DecodeAll("s", [0], bs, maxLen) == Decoded(true, [a], [])
  {
    var format, lens: seq<nat> := "s", [0];
    assert format[1..] == "" && format[0] == 's' && lens[0] == 0;
    assert DecodeAll(format[1..], lens[1..], [], maxLen) == Decoded(true, [], []);
    assert [a] + [] == [a];
  }

  lemma SmallLength(n: byte)
    ensures BigEndian(n, 4) == [0, 0, 0, n]
  {
    assert BigEndian(n, 1) == [n];
    assert BigEndian(0, 3) == [0, 0, 0];
    BigEndianOfValue([0, 0, 0, n]);
    ValueLeadingZero([0, 0, n]);
    ValueLeadingZero([0, n]);
    ValueLeadingZero([n]);
    assert [0] + [0, 0, n] == [0, 0, 0, n] && [0] + [0, n] == [0, 0, n] && [0] + [n] == [0, n];
  }

  /** Seven bytes in, five bytes out. */
  lemma ZeroCutsConcrete()
    ensures var d := DecodeAll("s", [0], [0, 0, 0, 3, 97, 0, 98], 7);
      && d.ok && d.rest == []
      && EncodeAll("s", SeenAll(d.value)) == Some([0, 0, 0, 1, 97])
  {
    SmallLength(3);
    SmallLength(1);
    ZeroCutsString([97], [98]);
    assert [97] + [0] + [98] == [97, 0, 98];
    assert [0, 0, 0, 3] + [97, 0, 98] == [0, 0, 0, 3, 97, 0, 98];
    assert [0, 0, 0, 1] + [97] == [0, 0, 0, 1, 97];
  }

  // The bytes, written out

  /**
   * Every kind of value in bytes: integers most significant byte first, strings and big numbers behind their length,
   * raw bytes and text as they are.
   */
  lemma FieldBytes(a: Arg)
    ensures Encode(a) ==
      match a
      case U8(b) => Some([b])
      case U16(w) => Some([w / 0x100, w % 0x100])
      case U32(d) => Some(FourBytes(d))
      case U64(q) => Some(FourBytes(q / 0x1_0000_0000) + FourBytes(q % 0x1_0000_0000))
      case SshString(s) => if |s| <= STRING_SIZE_MAX then Some(FourBytes(|s|) + s) else None
      case CString(s) => Some(FourBytes(|s|) + s)
      case Raw(s) => Some(s)
      case Big(n) =>
        if MakeBignumString(n).None? then None
        else Some(FourBytes(|MakeBignumString(n).value|) + MakeBignumString(n).value)
      case Text(s) => Some(s)
  {
    match a
    case U16(w) => TwoBytes(w);
    case U32(d) => FourBytesAre(d);
    case U64(q) =>
      LongBytes(q);
      FourBytesAre(q / 0x1_0000_0000);
      FourBytesAre(q % 0x1_0000_0000);
    case SshString(s) => FourBytesAre(|s|);
    case CString(s) => FourBytesAre(|s|);
    case Big(n) =>
      if MakeBignumString(n).Some? {
        MpintLength(n);
        FourBytesAre(|MakeBignumString(n).value|);
      }
    case _ =>
  }

  function FourBytes(d: u32): seq<byte> {
    [d / 0x100 / 0x100 / 0x100, d / 0x100 / 0x100 % 0x100, d / 0x100 % 0x100, d % 0x100]
  }

  lemma FourBytesAre(d: u32)
    ensures BigEndian(d, 4) == FourBytes(d)
  {
    TwoBytes(d / 0x100 / 0x100);
    LowBytes(d, 3);
    LowBytes(d / 0x100, 2);
    var high := d / 0x100 / 0x100;
    assert BigEndian(d, 4) == [high / 0x100, high % 0x100] + [d / 0x100 % 0x100] + [d % 0x100];
  }

  lemma TwoBytes(w: nat)
    requires w < 0x1_0000
    ensures BigEndian(w, 2) == [w / 0x100, w % 0x100]
  {
    LowBytes(w, 1);
    LowBytes(w / 0x100, 0);
    assert w / 0x100 < 0x100;
  }

  lemma LowBytes(v: nat, width: nat)
    ensures BigEndian(v, width + 1) == BigEndian(v / 0x100, width) + [v % 0x100] && BigEndian(v, 0) == []
  {
  }

  /** Eight bytes are two words. */
  lemma LongBytes(q: u64)
    ensures Encode(U64(q)).Some? && Encode(U64(q)).value
      == BigEndian(q / 0x1_0000_0000, 4) + BigEndian(q % 0x1_0000_0000, 4)
  {
    TwoWords(q / 0x1_0000_0000, q % 0x1_0000_0000);
  }

  lemma TwoWords(high: u32, low: u32)
    ensures BigEndian(high * 0x1_0000_0000 + low, 8) == BigEndian(high, 4) + BigEndian(low, 4)
  {
    var word: seq<byte> := BigEndian(high, 4) + BigEndian(low, 4);
    assert Value(word) == high * 0x1_0000_0000 + low by {
      PowersOf256();
      ValueOfBigEndian(high, 4);
      ValueOfBigEndian(low, 4);
      ValueConcat(BigEndian(high, 4), BigEndian(low, 4));
    }
    BigEndianOfValue(word);
  }

  /** A big number is accepted in any encoding. */
  lemma AnyBigAccepted(s: bytes, rest: seq<byte>, bs: seq<byte>, len: nat, maxLen: nat)
    requires |s| <= STRING_SIZE_MAX && bs == BigEndian(|s|, 4) + s + rest
    ensures Decode('B', len, bs, maxLen) == Decoded(true, Big(Value(s)), rest)
  {
    var letter := 'B';
    assert TakeString(bs) == Decoded(true, s, rest) by {
      TakeFront(s, rest);
    }
    BigDecoded(letter, bs, len, maxLen);
  }

  lemma BigDecoded(letter: char, bs: seq<byte>, len: nat, maxLen: nat)
    requires letter == 'B'
    ensures var t := TakeString(bs);
      Decode(letter, len, bs, maxLen) == Decoded(t.ok, Big(Value(t.value)), t.rest)
  {
  }

  lemma TakeFront(s: bytes, rest: seq<byte>)
    requires |s| <= STRING_SIZE_MAX
    ensures TakeString(BigEndian(|s|, 4) + s + rest) == Decoded(true, s, rest)
  {
    var tail: seq<byte> := s;
    StringTaken(s, rest);
    assert (tail + rest)[..|s|] == s && (tail + rest)[|s|..] == rest;
  }

  /** For a format without big numbers the packer reserves exactly what it writes. */
  lemma {:induction false} NeededIsExact(format: string, args: seq<Arg>)
    requires Agree(format, args) && 'B' !in format && EncodeAll(format, args).Some?
    ensures NeededAll(format, args) == |EncodeAll(format, args).value|
  {
    if format != "" {
      assert 'B' !in format[1..];
      NeededIsExact(format[1..], args[1..]);
    }
  }
}
