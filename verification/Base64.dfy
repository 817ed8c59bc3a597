/** Base64 (RFC 4648, section 4): what the encoder writes and exactly what the decoder accepts. */
module Base64 {
  import opened Arith
  import opened Bytes
  import opened ByteBuffer

  const NUL := '\0'

  // The code: six bits to a character and back, by position in the alphabet

  /** The alphabet: upper-case letters, lower-case letters, digits, plus and slash. */
  function Alphabet(i: nat): char
    requires i < 64
  {
    if i < 26 then ('A' as int + i) as char
    else if i < 52 then ('a' as int + i - 26) as char
    else if i < 62 then ('0' as int + i - 52) as char
    else if i == 62 then '+'
    else '/'
  }

  /** The position of a character in the alphabet, or 64 for any other. */
  function Position(c: char): (i: nat)
    ensures i <= 64
  {
    if 'A' <= c <= 'Z' then c as int - 'A' as int
    else if 'a' <= c <= 'z' then 26 + c as int - 'a' as int
    else if '0' <= c <= '9' then 52 + c as int - '0' as int
    else if c == '+' then 62
    else if c == '/' then 63
    else 64
  }

  predicate InAlphabet(s: string) {
    forall i :: 0 <= i < |s| ==> Position(s[i]) < 64
  }

  lemma AlphabetInverse(c: char, i: nat)
    requires i < 64
    ensures Position(Alphabet(i)) == i && Alphabet(i) != '='
    ensures Position(c) < 64 ==> Alphabet(Position(c)) == c
  {
  }

  // The text of one to three bytes

  /** Three bytes as four groups of six bits. */
  function Sextets(a: byte, b: byte, c: byte): seq<nat> {
    [a / 4, a % 4 * 16 + b / 16, b % 16 * 4 + c / 64, c % 64]
  }

  function At(s: seq<byte>, i: nat): byte {
    if i < |s| then s[i] else 0
  }

  /** One more sextet than there are bytes; missing bytes count as zero. */
  function Group(s: seq<byte>): seq<nat>
    requires 1 <= |s| <= 3
  {
    Sextets(At(s, 0), At(s, 1), At(s, 2))[..|s| + 1]
  }

  function Text(d: seq<nat>): (t: string)
    requires forall i :: 0 <= i < |d| ==> d[i] < 64
  {
    seq(|d|, i requires 0 <= i < |d| => Alphabet(d[i]))
  }

  function Padding(k: nat): string
    requires 1 <= k <= 3
  {
    if k == 1 then "==" else if k == 2 then "=" else ""
  }

  function GroupText(s: seq<byte>): (t: string)
    requires 1 <= |s| <= 3
    ensures |t| == |s| + 1
  {
    Text(Group(s))
  }

  function EncodeGroup(s: seq<byte>): (t: string)
    requires 1 <= |s| <= 3
    ensures |t| == 4
  {
    GroupText(s) + Padding(|s|)
  }

  function Encode(x: seq<byte>): string {
    if x == [] then ""
    else if |x| <= 3 then EncodeGroup(x)
    else EncodeGroup(x[..3]) + Encode(x[3..])
  }

  // The bytes of two to four characters

  /** The number with four digits to the base 64. */
  function FromDigits(d0: nat, d1: nat, d2: nat, d3: nat): nat {
    d0 * 0x40000 + d1 * 0x1000 + d2 * 0x40 + d3
  }

  /** The number two to four characters stand for, as the leading digits of four. */
  function Block(s: string): nat
    requires 2 <= |s| <= 4
  {
    FromDigits(Position(s[0]), Position(s[1]),
               if |s| > 2 then Position(s[2]) else 0, if |s| > 3 then Position(s[3]) else 0)
  }

  /** The three low bytes of a number. */
  function ThreeBytes(n: nat): (r: seq<byte>)
    ensures |r| == 3
  {
    [n / 256 / 256 % 256, n / 256 % 256, n % 256]
  }

  function DecodeGroup(s: string): seq<byte>
    requires 2 <= |s| <= 4
  {
    ThreeBytes(Block(s))[..|s| - 1]
  }

  /** The bytes of a text without its padding. A single left-over character stands for nothing. */
  function Decode(p: string): seq<byte> {
    if |p| < 2 then []
    else if |p| <= 4 then DecodeGroup(p)
    else DecodeGroup(p[..4]) + Decode(p[4..])
  }

  /** The text before the first '='. */
  function Prefix(s: string): string {
    if s == "" || s[0] == '=' then "" else [s[0]] + Prefix(s[1..])
  }

  function Equals(s: string): nat {
    if s == "" then 0 else (if s[0] == '=' then 1 else 0) + Equals(s[1..])
  }

  /** Whether `equals` signs are the padding for a text of `n` characters. */
  predicate Padded(n: nat, equals: nat) {
    (n % 4 == 0 && equals == 0) || (n % 4 == 2 && equals == 2) || (n % 4 == 3 && equals == 1)
  }

  /** What the decoder accepts: note that the padding is counted, wherever in the text it is. */
  predicate Accepts(s: string) {
    var p := Prefix(s);
    p != "" && InAlphabet(p) && Padded(|p|, Equals(s))
  }

  // Decoding undoes encoding

  /** The groups of six bits are the digits to the base 64 of the number the bytes are to the base 256. */
  lemma SextetsAreDigits(a: byte, b: byte, c: byte)
    ensures FromDigits(a / 4, a % 4 * 16 + b / 16, b % 16 * 4 + c / 64, c % 64) == a * 0x10000 + b * 0x100 + c
  {
  }

  lemma OctetsOfNumber(a: byte, b: byte, c: byte)
    ensures ThreeBytes(a * 0x10000 + b * 0x100 + c) == [a, b, c]
  {
    DivideUnique(a * 0x10000 + b * 0x100 + c, 256, a * 256 + b, c);
    DivideUnique(a * 256 + b, 256, a, b);
  }

  lemma PositionOfText(d: seq<nat>, i: nat)
    requires i < |d| && forall j :: 0 <= j < |d| ==> d[j] < 64
    ensures Position(Text(d)[i]) == d[i]
  {
    AlphabetInverse('=', d[i]);
  }

  lemma GroupBlock(s: seq<byte>)
    requires 1 <= |s| <= 3
    ensures Block(GroupText(s)) == At(s, 0) * 0x10000 + At(s, 1) * 0x100 + At(s, 2)
  {
    var d := Group(s);
    SextetsAreDigits(At(s, 0), At(s, 1), At(s, 2));
    forall i | 0 <= i < |d|
      ensures Position(Text(d)[i]) == d[i]
    {
      PositionOfText(d, i);
    }
  }

  lemma GroupRoundTrip(s: seq<byte>)
    requires 1 <= |s| <= 3
    ensures DecodeGroup(GroupText(s)) == s
  {
    GroupBlock(s);
    OctetsOfNumber(At(s, 0), At(s, 1), At(s, 2));
    assert [At(s, 0), At(s, 1), At(s, 2)][..|s|] == s;
  }

  lemma GroupPlain(s: seq<byte>)
    requires 1 <= |s| <= 3
    ensures '=' !in GroupText(s) && InAlphabet(GroupText(s))
  {
    var d := Group(s);
    forall i | 0 <= i < |d|
      ensures Position(Text(d)[i]) < 64 && Text(d)[i] != '='
    {
      PositionOfText(d, i);
    }
  }

  lemma {:induction false} PrefixConcat(q: string, s: string)
    requires '=' !in q
    ensures Prefix(q + s) == q + Prefix(s) && Equals(q + s) == Equals(s)
  {
    if q == "" {
      assert q + s == s && q + Prefix(s) == Prefix(s);
    } else {
      assert (q + s)[1..] == q[1..] + s;
      PrefixConcat(q[1..], s);
    }
  }

  lemma GroupShape(s: seq<byte>)
    requires 1 <= |s| <= 3
    ensures Prefix(EncodeGroup(s)) == GroupText(s) && Equals(EncodeGroup(s)) == 3 - |s|
  {
    GroupPlain(s);
    PrefixConcat(GroupText(s), Padding(|s|));
    assert GroupText(s) + "" == GroupText(s);
    assert "=="[1..] == "=" && "="[1..] == "";
  }

  lemma FullGroup(q: string, x: seq<byte>)
    requires |x| > 3 && q == GroupText(x[..3])
    ensures Encode(x) == q + Encode(x[3..])
    ensures Prefix(Encode(x)) == q + Prefix(Encode(x[3..])) && Equals(Encode(x)) == Equals(Encode(x[3..]))
  {
    assert EncodeGroup(x[..3]) == q + "" == q;
    GroupPlain(x[..3]);
    PrefixConcat(q, Encode(x[3..]));
  }

  lemma DecodeFullGroup(q: string, p: string)
    requires |q| == 4 && p != ""
    ensures Decode(q + p) == DecodeGroup(q) + Decode(p)
  {
    assert (q + p)[..4] == q && (q + p)[4..] == p;
  }

  lemma {:induction false} DecodeEncode(x: seq<byte>)
    requires x != []
    ensures var p := Prefix(Encode(x)); |p| >= 2 && InAlphabet(p) && Decode(p) == x
  {
    if |x| <= 3 {
      GroupShape(x);
      GroupPlain(x);
      GroupRoundTrip(x);
    } else {
      var q, p := GroupText(x[..3]), Prefix(Encode(x[3..]));
      FullGroup(q, x);
      DecodeEncode(x[3..]);
      GroupPlain(x[..3]);
      GroupRoundTrip(x[..3]);
      DecodeFullGroup(q, p);
      assert x == x[..3] + x[3..];
    }
  }

  lemma PaddedStep(n: nat, equals: nat)
    requires Padded(n, equals)
    ensures Padded(4 + n, equals)
  {
    assert (4 + n) % 4 == n % 4;
  }

  lemma {:induction false} PaddingOfEncode(x: seq<byte>)
    requires x != []
    ensures Padded(|Prefix(Encode(x))|, Equals(Encode(x)))
  {
    if |x| <= 3 {
      GroupShape(x);
    } else {
      FullGroup(GroupText(x[..3]), x);
      PaddingOfEncode(x[3..]);
      PaddedStep(|Prefix(Encode(x[3..]))|, Equals(Encode(x)));
    }
  }

  /** Every non-empty byte string is accepted after encoding and decodes to itself; the empty one is refused. */
  lemma RoundTrip(x: seq<byte>)
    ensures Accepts(Encode(x)) <==> x != []
    ensures Decode(Prefix(Encode(x))) == x
  {
    if x != [] {
      DecodeEncode(x);
      PaddingOfEncode(x);
    }
  }

  lemma EqualsFirst(tail: string)
    ensures Prefix("=" + tail) == "" && Equals("=" + tail) == 1 + Equals(tail)
  {
    var s := "=" + tail;
    assert s[0] == '=' && s[1..] == tail;
  }

  lemma PrefixOnly(p: string, s: string)
    requires '=' !in p && Prefix(s) == ""
    ensures Prefix(p + s) == p && Equals(p + s) == Equals(s)
  {
    PrefixConcat(p, s);
    assert p + "" == p;
  }

  /** What follows the first equals sign matters only through the number of equals signs in it. */
  lemma TailIsOnlyCounted(p: string, tail: string)
    requires '=' !in p
    ensures Prefix(p + ("=" + tail)) == p
    ensures Accepts(p + ("=" + tail)) <==> p != "" && InAlphabet(p) && Padded(|p|, 1 + Equals(tail))
  {
    EqualsFirst(tail);
    PrefixOnly(p, "=" + tail);
  }

  // Encoding into memory

  /** The size of the allocation for `len` bytes of input. */
  function Allocated(len: nat): nat {
    4 * (len + (3 - len % 3)) / 3 + 1
  }

  lemma {:induction false} EncodedLength(x: seq<byte>)
    ensures |Encode(x)| == (|x| + 2) / 3 * 4
  {
    if |x| > 3 {
      EncodedLength(x[3..]);
    }
  }

  lemma SizesFit(n: nat)
    ensures (n + 2) / 3 * 4 + 1 <= Allocated(n)
  {
    var q, r := n / 3, n % 3;
    assert n == 3 * q + r;
    assert (n + 2) / 3 == if r == 0 then q else q + 1;
    assert Allocated(n) == 4 * (q + 1) + 1;
  }

  /** The encoded text and its terminator fit the allocation. */
  lemma EncodedFits(x: seq<byte>)
    ensures |Encode(x)| + 1 <= Allocated(|x|)
  {
    EncodedLength(x);
    SizesFit(|x|);
  }

  /** Write the four characters of up to three bytes. The bit fields that are or-ed together do not overlap. */
  method WriteBlock(dest: array<char>, at: nat, s: seq<byte>)
    requires 1 <= |s| <= 3 && at + 4 <= dest.Length
    modifies dest
    ensures dest[..at + 4] == old(dest[..at]) + EncodeGroup(s)
  {
    if |s| == 1 {
      dest[at] := Alphabet(s[0] / 4);
      dest[at + 1] := Alphabet(s[0] % 4 * 16);
      dest[at + 2] := '=';
      dest[at + 3] := '=';
    } else if |s| == 2 {
      dest[at] := Alphabet(s[0] / 4);
      dest[at + 1] := Alphabet(s[1] / 16 + s[0] % 4 * 16);
      dest[at + 2] := Alphabet(s[1] % 16 * 4);
      dest[at + 3] := '=';
    } else {
      dest[at] := Alphabet(s[0] / 4);
      dest[at + 1] := Alphabet(s[1] / 16 + s[0] % 4 * 16);
      dest[at + 2] := Alphabet(s[2] / 64 + s[1] % 16 * 4);
      dest[at + 3] := Alphabet(s[2] % 64);
    }
  }

  lemma NothingAfter(t: string)
    ensures t == t + ""
  {
  }

  lemma SplitLast(x: seq<byte>)
    requires 1 <= |x| <= 3
    ensures Encode(x) == EncodeGroup(x) + Encode([])
  {
    NothingAfter(EncodeGroup(x));
  }

  lemma SplitFirst(x: seq<byte>)
    requires |x| > 3
    ensures Encode(x) == EncodeGroup(x[..3]) + Encode(x[3..])
  {
  }

  lemma SplitEncode(x: seq<byte>, n: nat)
    requires x != [] && n == if |x| > 3 then 3 else |x|
    ensures Encode(x) == EncodeGroup(x[..n]) + Encode(x[n..])
  {
    if |x| <= 3 {
      assert x[..n] == x && x[n..] == [];
      SplitLast(x);
    } else {
      SplitFirst(x);
    }
  }

  /** `done` is what has been written of the text when `rest` is still to come. */
  ghost predicate Written(done: string, rest: seq<byte>, source: seq<byte>) {
    done + Encode(rest) == Encode(source)
  }

  lemma WriteNext(done: string, rest: seq<byte>, n: nat, source: seq<byte>)
    requires Written(done, rest, source) && rest != [] && n == if |rest| > 3 then 3 else |rest|
    ensures Written(done + EncodeGroup(rest[..n]), rest[n..], source)
    ensures |done| + 4 <= |Encode(source)|
  {
    SplitEncode(rest, n);
    assert done + (EncodeGroup(rest[..n]) + Encode(rest[n..])) == done + EncodeGroup(rest[..n]) + Encode(rest[n..]);
  }

  lemma WriteEnd(done: string, source: seq<byte>)
    requires Written(done, [], source)
    ensures done == Encode(source)
  {
    assert done + "" == done;
  }

  /** The result holds the text and a terminator, and nothing is written outside the allocation. */
  method BinToBase64(source: seq<byte>) returns (base64: array<char>, ghost end: nat)
    ensures base64.Length == Allocated(|source|)
    ensures end < base64.Length && base64[end] == NUL && base64[..end] == Encode(source)
  {
    var flen := |source| + (3 - |source| % 3);
    flen := 4 * flen / 3 + 1;
    base64 := new char[flen](_ => NUL);
    var ptr, rest := 0, source;
    EncodedFits(source);
    assert base64[..0] + Encode(source) == Encode(source);
    while |rest| > 0
      invariant ptr <= |Encode(source)| < base64.Length
      invariant Written(base64[..ptr], rest, source)
    {
      var n := if |rest| > 3 then 3 else |rest|;
      WriteNext(base64[..ptr], rest, n, source);
      WriteBlock(base64, ptr, rest[..n]);
      ptr := ptr + 4;
      if |rest| < 3 {
        rest := rest[n..];
        break;
      }
      rest := rest[3..];
    }
    assert rest == [];
    WriteEnd(base64[..ptr], source);
    base64[ptr] := NUL;
    end := ptr;
  }

  // Decoding in place

  /** `a` holds the C string `s`. */
  ghost predicate IsString(a: array<char>, s: string)
    reads a
  {
    |s| < a.Length && a[..|s|] == s && NUL !in s && a[|s|] == NUL
  }

  /** The first `c` at or after `start`, or -1: a search that ends at the terminator of the string `t`. */
  method StrChr(a: array<char>, start: nat, c: char, ghost t: string) returns (i: int)
    requires start <= |t| < a.Length && a[..|t|] == t && a[|t|] == NUL && c != NUL
    requires forall k :: start <= k < |t| ==> t[k] != NUL
    ensures i == -1 ==> c !in t[start..]
    ensures i != -1 ==> start <= i < |t| && t[i] == c && c !in t[start..i]
  {
    i := start;
    while a[i] != NUL
      invariant start <= i <= |t| && c !in t[start..i]
      decreases |t| - i
    {
      assert i < |t| && a[i] == t[i];
      if a[i] == c {
        return;
      }
      assert t[start..i + 1] == t[start..i] + [t[i]];
      i := i + 1;
    }
    return -1;
  }

  /** What the string becomes: every '=' turned into a terminator. */
  function Cut(s: string): (r: string)
    ensures |r| == |s|
  {
    seq(|s|, i requires 0 <= i < |s| => if s[i] == '=' then NUL else s[i])
  }

  lemma EqualsFrom(s: string, i: nat, j: nat)
    requires i <= j <= |s| && '=' !in s[i..j]
    ensures Equals(s[i..]) == Equals(s[j..])
    ensures j < |s| && s[j] == '=' ==> Equals(s[i..]) == 1 + Equals(s[j + 1..])
  {
    assert s[i..] == s[i..j] + s[j..];
    PrefixConcat(s[i..j], s[j..]);
    if j < |s| {
      assert s[j..][1..] == s[j + 1..];
    }
  }

  lemma NoEquals(s: string)
    requires '=' !in s
    ensures Equals(s) == 0
  {
    assert s + "" == s;
    PrefixConcat(s, "");
  }

  /** The string when everything before `i` has been dealt with. */
  function CutBefore(s: string, i: nat): (r: string)
    requires i <= |s|
    ensures |r| == |s| && r[i..] == s[i..]
  {
    Cut(s)[..i] + s[i..]
  }

  lemma CutNext(s: string, i: nat, j: nat)
    requires i <= j < |s| && '=' !in s[i..j] && s[j] == '='
    ensures CutBefore(s, i)[j := NUL] == CutBefore(s, j + 1)
  {
    assert forall k :: i <= k < j ==> s[k] == s[i..j][k - i];
  }

  lemma CutEnd(s: string, i: nat)
    requires i <= |s| && '=' !in s[i..]
    ensures CutBefore(s, i) == Cut(s)
  {
    assert forall k :: i <= k < |s| ==> s[k] == s[i..][k - i];
  }

  /** `t` is what has become of `s` when everything before `i` has been dealt with and `num` signs were found. */
  ghost predicate Counted(t: string, s: string, i: nat, num: nat) {
    i <= |s| && NUL !in s && t == CutBefore(s, i) && num + Equals(s[i..]) == Equals(s)
  }

  lemma CountedStart(s: string)
    requires NUL !in s
    ensures Counted(s, s, 0, 0)
  {
    assert s[0..] == s && CutBefore(s, 0) == s;
  }

  lemma CountedRest(t: string, s: string, i: nat, num: nat)
    requires Counted(t, s, i, num)
    ensures |t| == |s| && t[i..] == s[i..] && forall k :: i <= k < |t| ==> t[k] != NUL
  {
    assert forall k :: i <= k < |s| ==> t[k] == t[i..][k - i] == s[i..][k - i] == s[k];
  }

  lemma CountedNext(t: string, s: string, i: nat, num: nat, j: nat)
    requires Counted(t, s, i, num) && i <= j < |t| && '=' !in t[i..j] && t[j] == '='
    ensures Counted(t[j := NUL], s, j + 1, num + 1)
  {
    assert t[i..j] == t[i..][..j - i] == s[i..j];
    assert s[j] == s[i..][j - i] == t[i..][j - i];
    EqualsFrom(s, i, j);
    CutNext(s, i, j);
  }

  lemma CountedEnd(t: string, s: string, i: nat, num: nat)
    requires Counted(t, s, i, num) && '=' !in t[i..]
    ensures t == Cut(s) && num == Equals(s)
  {
    NoEquals(s[i..]);
    CutEnd(s, i);
  }

  method Terminate(a: array<char>, i: nat, ghost t: string)
    requires i < |t| < a.Length && a[..|t|] == t && a[|t|] == NUL
    modifies a
    ensures a[..|t|] == t[i := NUL] && a[|t|] == NUL
  {
    a[i] := NUL;
  }

  /** Find the next equals sign from `ptr` on and replace it; the result is the place after it, or -1. */
  method CutNextSign(a: array<char>, ghost s: string, ptr: nat, ghost num: nat) returns (next: int)
    requires ptr <= |s| < a.Length && a[|s|] == NUL && Counted(a[..|s|], s, ptr, num)
    modifies a
    ensures a[|s|] == NUL
    ensures next == -1 ==> a[..|s|] == Cut(s) && num == Equals(s)
    ensures next != -1 ==> ptr < next <= |s| && Counted(a[..|s|], s, next, num + 1)
  {
    ghost var t := a[..|s|];
    CountedRest(t, s, ptr, num);
    var i := StrChr(a, ptr, '=', t);
    if i == -1 {
      CountedEnd(t, s, ptr, num);
      return -1;
    }
    CountedNext(t, s, ptr, num, i);
    Terminate(a, i, t);
    next := i + 1;
  }

  /** Count the equals signs and replace each by a terminator. */
  method GetEquals(a: array<char>, ghost s: string) returns (num: nat)
    requires IsString(a, s)
    modifies a
    ensures num == Equals(s)
    ensures a[..|s|] == Cut(s) && a[|s|] == NUL
  {
    num := 0;
    var ptr := 0;
    CountedStart(s);
    while true
      invariant ptr <= |s| < a.Length && Counted(a[..|s|], s, ptr, num) && a[|s|] == NUL
      decreases |s| - ptr
    {
      var next := CutNextSign(a, s, ptr, num);
      if next == -1 {
        return;
      }
      num := num + 1;
      ptr := next;
    }
  }

  lemma {:induction false} PrefixCut(s: string, n: nat)
    requires n <= |s| && NUL !in s && NUL !in Cut(s)[..n] && (n == |s| || Cut(s)[n] == NUL)
    ensures Prefix(s) == Cut(s)[..n] && Prefix(s) == s[..n]
  {
    assert '=' !in s[..n] && s[..n] == Cut(s)[..n] by {
      forall k | 0 <= k < n
        ensures s[k] != '=' && s[k] == Cut(s)[k]
      {
        assert Cut(s)[..n][k] == Cut(s)[k];
      }
    }
    assert s == s[..n] + s[n..];
    PrefixConcat(s[..n], s[n..]);
    assert s[..n] + "" == s[..n];
  }

  /** The length of the text before the first equals sign, once those are terminators. */
  method StrLen(a: array<char>, ghost s: string) returns (n: nat)
    requires NUL !in s && |s| < a.Length && a[..|s|] == Cut(s) && a[|s|] == NUL
    ensures n <= |s| && a[..n] == Prefix(s) == s[..n]
  {
    n := 0;
    while a[n] != NUL
      invariant n <= |s| && NUL !in a[..n]
      decreases |s| - n
    {
      assert a[..n + 1] == a[..n] + [a[n]];
      n := n + 1;
    }
    assert a[..n] == Cut(s)[..n];
    PrefixCut(s, n);
  }

  /** Look up `num` + 1 characters. The index of the terminator, 64, would pass as zero, but none is looked up. */
  method ToBlock4(a: array<char>, at: nat, num: nat) returns (ok: bool, block: nat)
    requires num <= 3 && at + num < a.Length && NUL !in a[at..at + num + 1]
    ensures num == 0 ==> ok && block == 0
    ensures num > 0 ==> (ok <==> InAlphabet(a[at..at + num + 1]))
    ensures num > 0 && ok ==> block == Block(a[at..at + num + 1])
  {
    ok, block := true, 0;
    if num < 1 {
      return;
    }
    ghost var s := a[at..at + num + 1];
    assert forall k :: 0 <= k <= num ==> s[k] == a[at + k];
    var i := Position(a[at]);
    if i == 64 {
      return false, block;
    }
    block := i * 0x40000;
    i := Position(a[at + 1]);
    if i == 64 {
      return false, block;
    }
    block := block + i * 0x1000;
    if num < 2 {
      return;
    }
    i := Position(a[at + 2]);
    if i == 64 {
      return false, block;
    }
    block := block + i * 0x40;
    if num < 3 {
      return;
    }
    i := Position(a[at + 3]);
    if i == 64 {
      return false, block;
    }
    block := block + i;
  }

  /** The allocation holds a power of two of bytes, so it is full exactly at the limit. */
  lemma FullAtLimit(capacity: nat, total: nat)
    requires PowerOfTwo(capacity) && capacity <= BUFFER_SIZE_MAX && total - 3 <= capacity
    ensures total <= capacity || total < BUFFER_SIZE_MAX <==> total <= BUFFER_SIZE_MAX
  {
    if total == BUFFER_SIZE_MAX {
      var k: nat :| capacity == Pow(2, k);
      PowersOfTwo();
      assert Pow(2, 28) == 2 * Pow(2, 27);
      if k <= 27 {
        PowMonotoneExponent(2, k, 27);
      } else {
        PowMonotoneExponent(2, 28, k);
      }
    }
  }

  /** Decode one group at the end of the buffer. */
  method AddGroup(buffer: Buffer, a: array<char>, at: nat, num: nat) returns (ok: bool)
    requires buffer.Valid() && buffer.pos == 0
    requires 1 <= num <= 3 && at + num < a.Length && NUL !in a[at..at + num + 1]
    modifies buffer, buffer.data
    ensures buffer.Valid() && buffer.pos == 0 && (buffer.data == old(buffer.data) || fresh(buffer.data))
    ensures ok <==> InAlphabet(a[at..at + num + 1]) && |old(buffer.Contents())| + num <= BUFFER_SIZE_MAX
    ensures ok ==> buffer.Contents() == old(buffer.Contents()) + DecodeGroup(a[at..at + num + 1])
  {
    var block;
    ok, block := ToBlock4(a, at, num);
    if !ok {
      return;
    }
    var dest := ThreeBytes(block);
    FullAtLimit(buffer.capacity, buffer.used + num);
    ok := buffer.AddData(dest[..num]);
  }

  /** `done` is what the first `at` characters of `p` stand for. */
  ghost predicate Decoded(done: seq<byte>, p: string, at: nat) {
    at <= |p| && at % 4 == 0 && InAlphabet(p[..at]) && done + Decode(p[at..]) == Decode(p)
  }

  lemma InAlphabetSplit(p: string, i: nat)
    requires i <= |p|
    ensures InAlphabet(p) <==> InAlphabet(p[..i]) && InAlphabet(p[i..])
  {
    if InAlphabet(p[..i]) && InAlphabet(p[i..]) {
      assert forall k :: i <= k < |p| ==> p[k] == p[i..][k - i];
    }
  }

  lemma NotInAlphabet(p: string, i: nat, j: nat)
    requires i <= j <= |p| && !InAlphabet(p[i..j])
    ensures !InAlphabet(p)
  {
    var k :| 0 <= k < j - i && Position(p[i..j][k]) == 64;
    assert Position(p[i + k]) == 64;
  }

  lemma DecodedNext(done: seq<byte>, p: string, at: nat)
    requires Decoded(done, p, at) && |p| - at > 4
    ensures InAlphabet(p[at..at + 4]) ==> Decoded(done + DecodeGroup(p[at..at + 4]), p, at + 4)
    ensures |Decode(p)| >= |done| + 3
  {
    var q, rest := p[at..at + 4], p[at + 4..];
    assert p[at..] == q + rest;
    DecodeFullGroup(q, rest);
    assert done + (DecodeGroup(q) + Decode(rest)) == done + DecodeGroup(q) + Decode(rest);
    InAlphabetSplit(p[..at + 4], at);
    assert p[..at + 4][..at] == p[..at] && p[..at + 4][at..] == q;
  }

  lemma DecodedEnd(done: seq<byte>, p: string, at: nat)
    requires Decoded(done, p, at) && 2 <= |p| - at <= 4
    ensures Decode(p) == done + DecodeGroup(p[at..]) && |DecodeGroup(p[at..])| == |p| - at - 1
  {
    var rest := p[at..];
    assert 2 <= |rest| <= 4 && Decode(rest) == DecodeGroup(rest);
  }

  lemma PaddedAtEnd(n: nat, at: nat, num: nat, equals: nat)
    requires at % 4 == 0 && n == at + num + 1 && 1 <= num <= 3
    ensures Padded(n, equals) <==> equals == 3 - num
  {
    assert n % 4 == (num + 1) % 4;
  }

  lemma NotPadded(n: nat, at: nat, equals: nat)
    requires at % 4 == 0 && n == at + 1
    ensures !Padded(n, equals)
  {
    assert n % 4 == 1;
  }

  /** With one character left, or none at all, the text is refused. */
  lemma TooShort(s: string, at: nat, len: nat)
    requires at <= |Prefix(s)| && at % 4 == 0 && |Prefix(s)| - at == len < 2 && (len > 0 || at == 0)
    ensures !Accepts(s)
  {
    if len == 1 {
      NotPadded(|Prefix(s)|, at, Equals(s));
    }
  }

  lemma LastGroupAccepted(s: string, at: nat, len: nat)
    requires at <= |Prefix(s)| && at % 4 == 0 && |Prefix(s)| - at == len && 2 <= len <= 4
    requires InAlphabet(Prefix(s)[..at])
    ensures Accepts(s) <==> InAlphabet(Prefix(s)[at..]) && Equals(s) == 4 - len
  {
    InAlphabetSplit(Prefix(s), at);
    PaddedAtEnd(|Prefix(s)|, at, len - 1, Equals(s));
  }

  /** At the end of the text the number of characters left decides about the padding. */
  lemma AtEnd(s: string, done: seq<byte>, at: nat, len: nat)
    requires Decoded(done, Prefix(s), at) && |Prefix(s)| - at == len <= 4 && (len > 0 || at == 0)
    ensures Accepts(s) <==> len >= 2 && InAlphabet(Prefix(s)[at..]) && Equals(s) == 4 - len
    ensures len >= 2 ==> |Decode(Prefix(s))| == |done| + len - 1
    ensures len >= 2 ==> Decode(Prefix(s)) == done + DecodeGroup(Prefix(s)[at..])
  {
    if len >= 2 {
      LastGroupAccepted(s, at, len);
      DecodedEnd(done, Prefix(s), at);
    } else {
      TooShort(s, at, len);
    }
  }

  /** A null result is a refusal: the text is not acceptable or its bytes do not fit a buffer. */
  method Base64ToBin(source: string) returns (buffer: Buffer?)
    requires NUL !in source
    ensures buffer != null <==> Accepts(source) && |Decode(Prefix(source))| <= BUFFER_SIZE_MAX
    ensures buffer != null ==> fresh(buffer) && buffer.Valid() && buffer.Contents() == Decode(Prefix(source))
  {
    var base64 := new char[|source| + 1](i requires 0 <= i <= |source| => if i < |source| then source[i] else NUL);
    var equals := GetEquals(base64, source);
    if equals > 2 {
      return null;
    }
    var result := new Buffer();
    var len := StrLen(base64, source);
    var ok, ptr := FullBlocks(result, base64, len, Prefix(source));
    if !ok {
      return null;
    }
    buffer := LastBlock(result, base64, ptr, len - ptr, equals, source);
  }

  /** Decode four characters at a time while more than four are left. */
  method FullBlocks(result: Buffer, a: array<char>, n: nat, ghost p: string) returns (ok: bool, ptr: nat)
    requires n == |p| < a.Length && a[..n] == p && NUL !in p
    requires result.Valid() && result.pos == 0 && result.Contents() == []
    modifies result, result.data
    ensures ok ==> result.Valid() && result.pos == 0 && (result.data == old(result.data) || fresh(result.data))
    ensures ok ==> ptr <= n <= ptr + 4 && (ptr < n || ptr == 0) && Decoded(result.Contents(), p, ptr)
    ensures !ok ==> !InAlphabet(p) || |Decode(p)| > BUFFER_SIZE_MAX
  {
    var len := n;
    ptr := 0;
    assert p[0..] == p;
    while len > 4
      invariant ptr + len == n && (ptr == 0 || len > 0)
      invariant result.Valid() && result.pos == 0 && (result.data == old(result.data) || fresh(result.data))
      invariant Decoded(result.Contents(), p, ptr)
    {
      assert a[ptr..ptr + 4] == p[ptr..ptr + 4];
      DecodedNext(result.Contents(), p, ptr);
      ok := AddGroup(result, a, ptr, 3);
      if !ok {
        if !InAlphabet(p[ptr..ptr + 4]) {
          NotInAlphabet(p, ptr, ptr + 4);
        }
        return;
      }
      len := len - 4;
      ptr := ptr + 4;
    }
    ok := true;
  }

  /** The last two, three or four characters must come with the padding that belongs to them. */
  method LastBlock(result: Buffer, a: array<char>, at: nat, len: nat, equals: nat, ghost s: string)
    returns (buffer: Buffer?)
    requires at + len == |Prefix(s)| < a.Length && a[..at + len] == Prefix(s) && NUL !in Prefix(s)
    requires len <= 4 && (len > 0 || at == 0) && equals == Equals(s)
    requires result.Valid() && result.pos == 0 && Decoded(result.Contents(), Prefix(s), at)
    modifies result, result.data
    ensures buffer == null || buffer == result
    ensures buffer != null <==> Accepts(s) && |Decode(Prefix(s))| <= BUFFER_SIZE_MAX
    ensures buffer != null ==> result.Valid() && result.Contents() == Decode(Prefix(s))
  {
    ghost var done := result.Contents();
    AtEnd(s, done, at, len);
    if len < 2 || (len == 4 && equals != 0) || (len == 2 && equals != 2) || (len == 3 && equals != 1) {
      return null;
    }
    assert a[at..at + len] == Prefix(s)[at..];
    var ok := AddGroup(result, a, at, len - 1);
    return if ok then result else null;
  }
}
