/** The format-driven calls on a buffer, proved against the functions of `Wire`. */
module Packer {
  import opened Bytes
  import opened ByteBuffer
  import opened Mpint
  import opened Wire

  lemma {:induction false} ArgCountComposes(f: string, g: string)
    ensures ArgCount(f + g) == ArgCount(f) + ArgCount(g)
  {
    if f == "" {
      assert f + g == g;
    } else {
      assert (f + g)[1..] == f[1..] + g;
      ArgCountComposes(f[1..], g);
    }
  }

  lemma CountOneMore(format: string, i: nat)
    requires i < |format|
    ensures ArgCount(format[..i + 1]) == ArgCount(format[..i]) + if format[i] == 'P' then 2 else 1
    ensures ArgCount(format[..i + 1]) <= ArgCount(format)
  {
    assert format[..i + 1] == format[..i] + [format[i]];
    ArgCountComposes(format[..i], [format[i]]);
    assert [format[i]][1..] == [];
    assert ArgCount([format[i]]) == (if format[i] == 'P' then 2 else 1) + ArgCount([]);
    assert format == format[..i + 1] + format[i + 1..];
    ArgCountComposes(format[..i + 1], format[i + 1..]);
  }

  /** One more letter of a format. */
  lemma OneMore(format: string, args: seq<Arg>, i: nat)
    requires |format| == |args| && i < |format|
    ensures var x, y := EncodeAll(format[..i], args[..i]), EncodeAll(format[..i + 1], args[..i + 1]);
      && (y.Some? <==> x.Some? && format[i] in LETTERS && Encode(args[i]).Some?)
      && (y.Some? ==> y.value == x.value + Encode(args[i]).value)
  {
    assert format[..i + 1] == format[..i] + [format[i]] && args[..i + 1] == args[..i] + [args[i]];
    assert [format[i]][1..] == [] && [args[i]][1..] == [];
    PackingComposes(format[..i], [format[i]], args[..i], [args[i]]);
    var e := Encode(args[i]);
    assert e.Some? ==> e.value + [] == e.value;
  }

  /** What the whole format packs begins with what a prefix of it packs. */
  lemma Split(format: string, args: seq<Arg>, i: nat)
    requires |format| == |args| && i <= |format|
    ensures var x, z := EncodeAll(format[..i], args[..i]), EncodeAll(format, args);
      z.Some? ==> x.Some? && |x.value| <= |z.value|
  {
    assert format == format[..i] + format[i..] && args == args[..i] + args[i..];
    PackingComposes(format[..i], format[i..], args[..i], args[i..]);
  }

  /** What the whole format needs; fails when the number of arguments is wrong. */
  method NeededFor(format: string, argc: nat, args: seq<Arg>) returns (ok: bool, needed: nat)
    requires Agree(format, args)
    ensures (forall i :: 0 <= i < |format| ==> format[i] in LETTERS) ==>
      (ok <==> argc == ArgCount(format)) && (ok ==> needed == NeededAll(format, args))
  {
    var i, count := 0, 0;
    needed := 0;
    while i < |format|
      invariant 0 <= i <= |format| && count == ArgCount(format[..i])
      invariant needed + NeededAll(format[i..], args[i..]) == NeededAll(format, args)
    {
      CountOneMore(format, i);
      if count > argc {
        return false, 0;
      }
      if format[i] !in LETTERS {
        return argc == count, needed;
      }
      if format[i] == 'P' {
        count := count + 1;
      }
      needed := needed + NeededSize(args[i]);
      assert format[i..][1..] == format[i + 1..] && args[i..][1..] == args[i + 1..];
      i, count := i + 1, count + 1;
    }
    assert format[..i] == format;
    ok := argc == count;
  }

  /** Reserve what the whole format needs; the sum is passed on as a 32-bit length. */
  method PackAllocate(buf: Buffer, format: string, argc: nat, args: seq<Arg>) returns (ok: bool)
    requires buf.Valid() && Agree(format, args)
    modifies buf, buf.data
    ensures buf.Valid() && buf.Contents() == old(buf.Contents()) && (buf.data == old(buf.data) || fresh(buf.data))
    ensures (forall i :: 0 <= i < |format| ==> format[i] in LETTERS) ==>
      (ok <==> argc == ArgCount(format) && (NeededAll(format, args) % U32MOD <= old(buf.capacity)
                                            || NeededAll(format, args) % U32MOD < BUFFER_SIZE_MAX))
  {
    var needed;
    ok, needed := NeededFor(format, argc, args);
    if ok {
      ok := buf.AllocateSize(needed % U32MOD);
    }
  }

  /** What appending `bytes` as one addition does; `done` says whether all of it was appended. */
  ghost predicate Appended(before: seq<byte>, after: seq<byte>, x: Option<seq<byte>>, done: bool) {
    && (done ==> x.Some? && after == before + x.value)
    && (x.Some? && |before| + |x.value| < BUFFER_SIZE_MAX ==> done)
    && before <= after
  }

  method AddBytes(buf: Buffer, b: bytes) returns (ok: bool)
    requires buf.Valid()
    modifies buf, buf.data
    ensures buf.Valid() && (buf.data == old(buf.data) || fresh(buf.data))
    ensures Appended(old(buf.Contents()), buf.Contents(), Some(b), ok)
  {
    ok := buf.AddData(b);
  }

  /** A C string takes two additions, so a failure may leave its length behind. */
  method AddCString(buf: Buffer, s: bytes) returns (ok: bool)
    requires buf.Valid()
    modifies buf, buf.data
    ensures buf.Valid() && (buf.data == old(buf.data) || fresh(buf.data))
    ensures Appended(old(buf.Contents()), buf.Contents(), Some(BigEndian(|s|, 4) + s), ok)
  {
    ghost var before := buf.Contents();
    ok := AddBytes(buf, BigEndian(|s|, 4));
    if ok {
      ok := AddBytes(buf, s);
      assert before + BigEndian(|s|, 4) + s == before + (BigEndian(|s|, 4) + s);
    }
  }

  method AddString(buf: Buffer, s: seq<byte>) returns (ok: bool)
    requires buf.Valid() && |s| <= STRING_SIZE_MAX
    modifies buf, buf.data
    ensures buf.Valid() && (buf.data == old(buf.data) || fresh(buf.data))
    ensures Appended(old(buf.Contents()), buf.Contents(), Some(BigEndian(|s|, 4) + s), ok)
  {
    ok := buf.AddSshString(s);
  }

  /** Append one value. */
  method PackOne(buf: Buffer, a: Arg) returns (ok: bool)
    requires buf.Valid()
    modifies buf, buf.data
    ensures buf.Valid() && (buf.data == old(buf.data) || fresh(buf.data))
    ensures Appended(old(buf.Contents()), buf.Contents(), Encode(a), ok)
  {
    match a
    case U8(b) => ok := AddBytes(buf, [b]);
    case U16(w) => ok := AddBytes(buf, BigEndian(w, 2));
    case U32(d) => ok := AddBytes(buf, BigEndian(d, 4));
    case U64(q) => ok := AddBytes(buf, BigEndian(q, 8));
    case SshString(s) =>
      if |s| > STRING_SIZE_MAX {
        return false;
      }
      ok := AddString(buf, s);
    case CString(s) => ok := AddCString(buf, s);
    case Raw(s) => ok := AddBytes(buf, s);
    case Big(n) =>
      var m := MakeBignumString(n);
      MpintLength(n);
      if m.None? {
        return false;
      }
      ok := AddString(buf, m.value);
    case Text(s) => ok := AddBytes(buf, s);
  }

  /** What a packing call does to the contents, and when it must succeed. */
  ghost predicate Packed(before: seq<byte>, after: seq<byte>, format: string, argc: nat, args: seq<Arg>, ok: bool)
    requires |format| == |args|
  {
    && (ok ==> format != "" && argc == ArgCount(format) <= 256)
    && Appended(before, after,
                if format != "" && argc == ArgCount(format) <= 256 then EncodeAll(format, args) else None, ok)
  }

  method PackVa(buf: Buffer, format: string, argc: nat, args: seq<Arg>) returns (ok: bool)
    requires buf.Valid() && Agree(format, args)
    modifies buf, buf.data
    ensures buf.Valid() && (buf.data == old(buf.data) || fresh(buf.data))
    ensures Packed(old(buf.Contents()), buf.Contents(), format, argc, args, ok)
  {
    if argc > 256 {
      return false;
    }
    ok := false;
    var i, count := 0, 0;
    ghost var before := buf.Contents();
    while i < |format|
      invariant 0 <= i <= |format| && count == ArgCount(format[..i]) && (ok <==> i > 0)
      invariant buf.Valid() && (buf.data == old(buf.data) || fresh(buf.data))
      invariant PackedSoFar(before, buf.Contents(), format, args, i)
    {
      CountOneMore(format, i);
      if count > argc {
        return false;
      }
      ghost var now := buf.Contents();
      if format[i] !in LETTERS {
        Stuck(before, now, now, format, args, i);
        return false;
      }
      ok := PackOne(buf, args[i]);
      if !ok {
        Stuck(before, now, buf.Contents(), format, args, i);
        return;
      }
      Onward(before, now, buf.Contents(), format, args, i);
      count := count + if format[i] == 'P' then 2 else 1;
      i := i + 1;
    }
    assert format[..i] == format && args[..i] == args;
    if argc != count {
      return false;
    }
  }

  ghost predicate PackedSoFar(before: seq<byte>, now: seq<byte>, format: string, args: seq<Arg>, i: nat)
    requires |format| == |args| && i <= |format|
  {
    var x := EncodeAll(format[..i], args[..i]);
    x.Some? && now == before + x.value
  }

  lemma Onward(before: seq<byte>, now: seq<byte>, after: seq<byte>, format: string, args: seq<Arg>, i: nat)
    requires |format| == |args| && i < |format| && format[i] in LETTERS && PackedSoFar(before, now, format, args, i)
    requires Appended(now, after, Encode(args[i]), true)
    ensures PackedSoFar(before, after, format, args, i + 1)
  {
    OneMore(format, args, i);
    var done, x := EncodeAll(format[..i], args[..i]).value, Encode(args[i]).value;
    assert before + done + x == before + (done + x);
  }

  /** When a value cannot be appended, the whole format could not be packed into this buffer either. */
  lemma Stuck(before: seq<byte>, now: seq<byte>, after: seq<byte>, format: string, args: seq<Arg>, i: nat)
    requires |format| == |args| && i < |format| && PackedSoFar(before, now, format, args, i)
    requires format[i] !in LETTERS || Appended(now, after, Encode(args[i]), false)
    requires now <= after
    ensures Appended(before, after, EncodeAll(format, args), false)
  {
    OneMore(format, args, i);
    Split(format, args, i + 1);
    PrefixOfWhole(before, EncodeAll(format[..i], args[..i]).value, after);
  }

  lemma PrefixOfWhole(before: seq<byte>, done: seq<byte>, after: seq<byte>)
    requires before + done <= after
    ensures before <= after
  {
  }

  /** Append the values of `args` as `format` says. */
  method Pack(buf: Buffer, format: string, argc: nat, args: seq<Arg>) returns (ok: bool)
    requires buf.Valid() && Agree(format, args)
    modifies buf, buf.data
    ensures buf.Valid() && (buf.data == old(buf.data) || fresh(buf.data))
    ensures ok ==>
      && format != "" && argc == ArgCount(format) <= 256 && EncodeAll(format, args).Some?
      && buf.Contents() == old(buf.Contents()) + EncodeAll(format, args).value
    ensures (&& format != "" && argc == ArgCount(format) <= 256 && EncodeAll(format, args).Some?
             && |old(buf.Contents())| + |EncodeAll(format, args).value| < BUFFER_SIZE_MAX
             && NeededAll(format, args) % U32MOD < BUFFER_SIZE_MAX)
            ==> ok
    ensures old(buf.Contents()) <= buf.Contents()
  {
    if argc > 256 {
      return false;
    }
    ok := PackAllocate(buf, format, argc, args);
    AllKnown(format, args);
    if ok {
      ok := PackVa(buf, format, argc, args);
    }
  }

  lemma {:induction false} AllKnown(format: string, args: seq<Arg>)
    requires |format| == |args|
    ensures EncodeAll(format, args).Some? ==> forall i :: 0 <= i < |format| ==> format[i] in LETTERS
  {
    if format != "" {
      AllKnown(format[1..], args[1..]);
      assert forall i :: 0 < i < |format| ==> format[i] == format[1..][i - 1];
    }
  }

  // Unpacking

  /** One value off the front of the buffer; `len` is the length a `P` asks for. */
  method UnpackOne(buf: Buffer, letter: char, len: nat, maxLen: nat) returns (ok: bool, value: Arg)
    requires buf.Valid() && |buf.Contents()| <= maxLen
    modifies buf`pos
    ensures buf.Valid()
    ensures var d := Decode(letter, len, old(buf.Contents()), maxLen);
      ok == d.ok && buf.Contents() == d.rest && (ok ==> value == d.value)
  {
    ok, value := false, U8(0);
    var bytes;
    ghost var all := buf.Contents();
    if letter == 'b' {
      ok, bytes := buf.GetData(1);
      if ok {
        value := U8(bytes[0]);
      }
    } else if letter == 'w' {
      ok, bytes := buf.GetData(2);
      if ok {
        FixedRange(bytes);
        value := U16(Value(bytes));
      }
    } else if letter == 'd' {
      ok, bytes := buf.GetData(4);
      if ok {
        FixedRange(bytes);
        value := U32(Value(bytes));
      }
    } else if letter == 'q' {
      ok, bytes := buf.GetData(8);
      if ok {
        FixedRange(bytes);
        value := U64(Value(bytes));
      }
    } else if letter == 'S' || letter == 'B' {
      var s := buf.GetSshString();
      ok := s.Some?;
      if ok {
        value := if letter == 'S' then SshString(s.value) else Big(MakeStringBn(s.value));
      }
    } else if letter == 's' {
      ok, bytes := buf.GetData(4);
      if ok {
        FixedRange(bytes);
        var n := Value(bytes);
        if !ShorterThanAll(n, maxLen) {
          return false, value;
        }
        ok, bytes := buf.GetData(n);
        if ok {
          value := CString(bytes);
        }
      }
    } else if letter == 'P' {
      if !ShorterThanAll(len, maxLen) {
        return false, value;
      }
      ok := buf.ValidateLength(len);
      if ok {
        var _, raw := buf.GetData(len);
        value := Raw(raw);
      }
    }
  }

  /** What the rest of the format will give is what the whole format still lacks. */
  ghost predicate Progress(format: string, lens: seq<nat>, i: nat, all: seq<byte>, values: seq<Arg>, rest: seq<byte>)
    requires |format| == |lens| && i <= |format|
  {
    var whole, left := DecodeAll(format, lens, all, |all|), DecodeAll(format[i..], lens[i..], rest, |all|);
    && (whole.ok <==> left.ok)
    && (whole.ok ==> whole.value == values + left.value && whole.rest == left.rest)
  }

  lemma Begin(format: string, lens: seq<nat>, all: seq<byte>)
    requires |format| == |lens|
    ensures Progress(format, lens, 0, all, [], all)
  {
    assert format[0..] == format && lens[0..] == lens;
    var whole := DecodeAll(format, lens, all, |all|);
    assert [] + whole.value == whole.value;
  }

  lemma End(format: string, lens: seq<nat>, all: seq<byte>, values: seq<Arg>, rest: seq<byte>)
    requires |format| == |lens| && Progress(format, lens, |format|, all, values, rest)
    ensures DecodeAll(format, lens, all, |all|) == Decoded(true, values, rest)
  {
    assert format[|format|..] == "" && values + [] == values;
  }

  lemma Advance(format: string, lens: seq<nat>, i: nat, all: seq<byte>, values: seq<Arg>, rest: seq<byte>)
    requires |format| == |lens| && i < |format| && Progress(format, lens, i, all, values, rest)
    ensures var y := Decode(format[i], lens[i], rest, |all|);
      if y.ok then Progress(format, lens, i + 1, all, values + [y.value], y.rest)
      else !DecodeAll(format, lens, all, |all|).ok
  {
    var y := Decode(format[i], lens[i], rest, |all|);
    assert format[i..][1..] == format[i + 1..] && lens[i..][1..] == lens[i + 1..];
    var left := DecodeAll(format[i + 1..], lens[i + 1..], y.rest, |all|);
    assert values + ([y.value] + left.value) == values + [y.value] + left.value;
  }

  /** The loop has dealt with `i` letters, which took `count` arguments. */
  ghost predicate Unpacking(format: string, lens: seq<nat>, i: nat, count: nat, all: seq<byte>,
                            values: seq<Arg>, rest: seq<byte>)
    requires |format| == |lens|
  {
    i <= |format| && count == ArgCount(format[..i]) && |rest| <= |all| && Progress(format, lens, i, all, values, rest)
  }

  lemma UnpackingNext(
    format: string, lens: seq<nat>, i: nat, count: nat, all: seq<byte>, values: seq<Arg>, rest: seq<byte>)
    requires |format| == |lens| && i < |format| && Unpacking(format, lens, i, count, all, values, rest)
    ensures count <= ArgCount(format)
    ensures var y := Decode(format[i], lens[i], rest, |all|);
      if y.ok && |y.rest| <= |all|
      then Unpacking(format, lens, i + 1, count + if format[i] == 'P' then 2 else 1, all, values + [y.value], y.rest)
      else y.ok || !DecodeAll(format, lens, all, |all|).ok
  {
    CountOneMore(format, i);
    Advance(format, lens, i, all, values, rest);
  }

  /**
   * Take values off the front of the buffer as `format` says. The call succeeds exactly when the number of
   * arguments is right, the format is not empty and every field is there.
   */
  method Unpack(buf: Buffer, format: string, argc: nat, lens: seq<nat>) returns (ok: bool, values: seq<Arg>)
    requires buf.Valid() && |lens| == |format|
    modifies buf`pos
    ensures buf.Valid()
    ensures var d := DecodeAll(format, lens, old(buf.Contents()), |old(buf.Contents())|);
      && (ok <==> format != "" && argc == ArgCount(format) <= 256 && d.ok)
      && (ok ==> values == d.value && buf.Contents() == d.rest)
  {
    ok, values := false, [];
    if argc > 256 {
      return;
    }
    ghost var all := buf.Contents();
    var maxLen := buf.used - buf.pos;
    var i, count := 0, 0;
    Begin(format, lens, all);
    while i < |format|
      invariant 0 <= i <= |format| && buf.Valid() && maxLen == |all| && (ok <==> i > 0)
      invariant Unpacking(format, lens, i, count, all, values, buf.Contents())
    {
      UnpackingNext(format, lens, i, count, all, values, buf.Contents());
      if count > argc {
        return false, [];
      }
      var value;
      ok, value := UnpackOne(buf, format[i], lens[i], maxLen);
      if !ok {
        return false, [];
      }
      values := values + [value];
      count := count + if format[i] == 'P' then 2 else 1;
      i := i + 1;
    }
    assert format[..i] == format;
    End(format, lens, all, values, buf.Contents());
    if argc != count {
      return false, [];
    }
  }
}
