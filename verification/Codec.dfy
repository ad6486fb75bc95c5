/**
 The call codec of `utils_suse/message.c`: headers, arguments, calls and returns as bytes, what
 comes back of them, and the cursor loops over a buffer that write and read them. Sizes are those
 of `tamDataFunction`.
 */
module Codec {
  import opened Bytes

  const MESSAGE_CALL: nat := 1
  const MESSAGE_FUNCTION_RET: nat := 2
  const MESSAGE_NEW_ULT: nat := 3

  /** `VAR_UINT32`, `VAR_CHAR_PTR`, `VAR_VOID_PTR` and `VAR_SIZE_T` are 0 to 3; `value` is the bytes behind them. */
  datatype Arg = Arg(kind: nat, size: nat, value: seq<byte>)

  /** `kind` is the `FuncType`, -1 in an error answer. */
  datatype Function = Function(kind: int, args: seq<Arg>)

  datatype Header = Header(kind: nat, caller: nat, dataSize: nat)

  datatype Body = Call(f: Function) | Return(value: nat) | Nothing

  datatype Message = Message(header: Header, body: Body)

  // ----- encoding -----

  predicate Scalar(kind: nat)
  {
    kind == 0 || kind == 3
  }

  /** What the code can carry: a known type, as many bytes as it says, scalars inside the union. */
  predicate ArgFits(a: Arg)
  {
    a.kind <= 3 && a.size == |a.value| < WORD && (Scalar(a.kind) ==> a.size <= 8)
  }

  predicate FunctionFits(f: Function)
  {
    |f.args| <= 9 && forall i | 0 <= i < |f.args| :: ArgFits(f.args[i])
  }

  /** `tamDataFunction` */
  function Size(f: Function): (n: nat)
  {
    2 + ArgsSize(f.args)
  }

  function ArgsSize(l: seq<Arg>): (n: nat)
  {
    if l == [] then 0 else 5 + l[0].size + ArgsSize(l[1..])
  }

  predicate Fits(m: Message)
  {
    && m.header.kind < 256 && m.header.caller < 65536 && m.header.dataSize < WORD
    && match m.body
       case Call(f) => m.header.kind == MESSAGE_CALL && FunctionFits(f) && m.header.dataSize == Size(f)
       case Return(v) => m.header.kind == MESSAGE_FUNCTION_RET && v < WORD
       case Nothing => m.header.kind == MESSAGE_NEW_ULT
  }

  function EncodeHeader(h: Header): (b: seq<byte>)
    requires h.kind < 256 && h.caller < 65536 && h.dataSize < WORD
    ensures |b| == 7
  {
    [h.kind] + Le16(h.caller) + Le32(h.dataSize)
  }

  function EncodeArg(a: Arg): (b: seq<byte>)
    requires ArgFits(a)
    ensures |b| == 5 + a.size
  {
    [a.kind] + Le32(a.size) + a.value
  }

  function EncodeArgs(l: seq<Arg>): (b: seq<byte>)
    requires forall i | 0 <= i < |l| :: ArgFits(l[i])
    ensures |b| == ArgsSize(l)
  {
    if l == [] then [] else EncodeArg(l[0]) + EncodeArgs(l[1..])
  }

  /** The low byte of a `FuncType`. */
  function LowByte(n: int): (b: byte)
  {
    n % 256
  }

  function FunctionHead(f: Function): (b: seq<byte>)
    requires |f.args| < 256
    ensures |b| == 2
  {
    [LowByte(f.kind), |f.args|]
  }

  function EncodeFunction(f: Function): (b: seq<byte>)
    requires FunctionFits(f)
    ensures |b| == Size(f)
  {
    FunctionHead(f) + EncodeArgs(f.args)
  }

  function EncodeBody(m: Message): (b: seq<byte>)
    requires Fits(m)
  {
    match m.body
    case Call(f) => EncodeFunction(f)
    case Return(v) => Le32(v)
    case Nothing => []
  }

  function Encode(m: Message): (b: seq<byte>)
    requires Fits(m)
  {
    EncodeHeader(m.header) + EncodeBody(m)
  }

  // ----- decoding -----

  /**
   `Unknown` is the -1 for a message type the code does not have. `Overrun` is where it reads past
   the buffer. `Overflow` is where it writes past what it has allocated or past the value of an
   argument: a function has room for ten arguments, but the allocation counts two bytes for its
   head, which is longer, so that the tenth already ends behind it.
   */
  datatype Decoded = Decoded(m: Message, used: nat) | Unknown | Overrun | Overflow

  datatype Parsed = Parsed(args: seq<Arg>, next: nat) | Short | Wide

  /** `function_arg_decode`: an argument of unknown type has no value, and the caller's cursor goes back by one. */
  function DecodeArg(b: seq<byte>, pos: nat): (r: Parsed)
    requires pos > 0
    ensures r.Parsed? ==> |r.args| == 1 && r.next + 1 >= pos
  {
    if pos + 5 > |b| then Short
    else
      var kind, size := b[pos] as nat, FromLe32(b[pos + 1..pos + 5]);
      if kind > 3 then Parsed([Arg(kind, size, [])], pos - 1)
      else if pos + 5 + size > |b| then Short
      else if Scalar(kind) && size > 8 then Wide
      else Parsed([Arg(kind, size, b[pos + 5..pos + 5 + size])], pos + 5 + size)
  }

  function DecodeArgs(b: seq<byte>, pos: nat, n: nat): (r: Parsed)
    requires pos >= n
    decreases n
  {
    if n == 0 then Parsed([], pos)
    else
      var a := DecodeArg(b, pos);
      if !a.Parsed? then a
      else
        var rest := DecodeArgs(b, a.next, n - 1);
        if !rest.Parsed? then rest else Parsed(a.args + rest.args, rest.next)
  }

  function DecodeHeader(b: seq<byte>): (h: Header)
    requires |b| >= 7
    ensures h.kind < 256 && h.caller < 65536 && h.dataSize < WORD
  {
    Header(b[0], FromLe16(b[1..3]), FromLe32(b[3..7]))
  }

  /** `message_decode` */
  function Decode(b: seq<byte>): (r: Decoded)
  {
    if |b| < 7 then Overrun
    else
      var h := DecodeHeader(b);
      if h.kind == MESSAGE_CALL then
        if |b| < 9 then Overrun
        else if b[8] > 9 then Overflow
        else
          var r := DecodeArgs(b, 9, b[8]);
          if r.Short? then Overrun
          else if r.Wide? then Overflow
          else Decoded(Message(h, Call(Function(b[7], r.args))), r.next)
      else if h.kind == MESSAGE_FUNCTION_RET then
        if |b| < 11 then Overrun else Decoded(Message(h, Return(FromLe32(b[7..11]))), 11)
      else if h.kind == MESSAGE_NEW_ULT then Decoded(Message(h, Nothing), 7)
      else Unknown
  }

  // ----- round trip -----

  lemma HeaderBack(h: Header, rest: seq<byte>)
    requires h.kind < 256 && h.caller < 65536 && h.dataSize < WORD
    ensures DecodeHeader(EncodeHeader(h) + rest) == h
  {
    var b := EncodeHeader(h) + rest;
    Le16RoundTrip(h.caller);
    Le32RoundTrip(h.dataSize);
    assert b[1..3] == Le16(h.caller) && b[3..7] == Le32(h.dataSize);
  }

  lemma ArgBack(pre: seq<byte>, a: Arg, rest: seq<byte>)
    requires ArgFits(a) && |pre| > 0
    ensures DecodeArg(pre + EncodeArg(a) + rest, |pre|) == Parsed([a], |pre| + 5 + a.size)
  {
    var b := pre + EncodeArg(a) + rest;
    Le32RoundTrip(a.size);
    assert b[|pre|] == a.kind;
    assert b[|pre| + 1..|pre| + 5] == Le32(a.size);
    assert b[|pre| + 5..|pre| + 5 + a.size] == a.value;
  }

  lemma {:induction false} ArgsBack(pre: seq<byte>, l: seq<Arg>, rest: seq<byte>)
    requires (forall i | 0 <= i < |l| :: ArgFits(l[i])) && |pre| >= |l|
    ensures DecodeArgs(pre + EncodeArgs(l) + rest, |pre|, |l|) == Parsed(l, |pre| + ArgsSize(l))
    decreases |l|
  {
    hide EncodeArg;
    hide DecodeArg;
    if l != [] {
      var first, others := EncodeArg(l[0]), EncodeArgs(l[1..]);
      var b := pre + EncodeArgs(l) + rest;
      assert b == pre + first + (others + rest);
      ArgBack(pre, l[0], others + rest);
      assert b == (pre + first) + others + rest;
      ArgsBack(pre + first, l[1..], rest);
      assert [l[0]] + l[1..] == l;
    }
  }

  /** The message as it comes back: of the function's type only the low byte is sent. */
  function Back(m: Message): (r: Message)
  {
    if m.body.Call? then m.(body := Call(m.body.f.(kind := LowByte(m.body.f.kind)))) else m
  }

  /** Decoding an encoded message, whatever follows it, gives it back and uses its own bytes only. */
  lemma RoundTrip(m: Message, rest: seq<byte>)
    requires Fits(m)
    ensures Decode(Encode(m) + rest) == Decoded(Back(m), |Encode(m)|)
    ensures m.body.Call? ==> |Encode(m)| == 7 + Size(m.body.f)
  {
    var b := Encode(m) + rest;
    assert b == EncodeHeader(m.header) + (EncodeBody(m) + rest);
    HeaderBack(m.header, EncodeBody(m) + rest);
    match m.body
    case Call(f) =>
      var pre := EncodeHeader(m.header) + FunctionHead(f);
      assert b == pre + EncodeArgs(f.args) + rest;
      ArgsBack(pre, f.args, rest);
    case Return(v) =>
      Le32RoundTrip(v);
      assert b[7..11] == Le32(v);
    case Nothing =>
  }

  /** It is the same message exactly when the function's type fits in the byte sent. */
  lemma RoundTripExact(m: Message, rest: seq<byte>)
    requires Fits(m)
    ensures Decode(Encode(m) + rest) == Decoded(m, |Encode(m)|) <==> (m.body.Call? ==> 0 <= m.body.f.kind < 256)
  {
    RoundTrip(m, rest);
  }

  /** The -1 of `retornar_error` arrives as 255. */
  lemma ErrorArrives(caller: nat, value: seq<byte>)
    requires caller < 65536 && |value| == 4
    ensures var f := Function(-1, [Arg(0, 4, value)]); var m := Message(Header(MESSAGE_CALL, caller, 11), Call(f));
            Fits(m) && Decode(Encode(m)) == Decoded(m.(body := Call(f.(kind := 255))), 18)
  {
    var f := Function(-1, [Arg(0, 4, value)]);
    var m := Message(Header(MESSAGE_CALL, caller, 11), Call(f));
    assert ArgsSize(f.args) == 9 + ArgsSize(f.args[1..]) == 9;
    RoundTrip(m, []);
    assert Encode(m) + [] == Encode(m);
  }

  function EncodeAll(l: seq<Message>): (b: seq<byte>)
    requires forall i | 0 <= i < |l| :: Fits(l[i])
  {
    if l == [] then [] else Encode(l[0]) + EncodeAll(l[1..])
  }

  /** Message after message until the bytes are used up; `None` when one cannot be read. */
  datatype Stream = Stream(l: seq<Message>) | Broken

  function DecodeAll(b: seq<byte>): (r: Stream)
    decreases |b|
  {
    if b == [] then Stream([])
    else
      var d := Decode(b);
      if !d.Decoded? || !(0 < d.used <= |b|) then Broken
      else
        var rest := DecodeAll(b[d.used..]);
        if rest.Broken? then Broken else Stream([d.m] + rest.l)
  }

  /** Any concatenation of encoded messages splits back into them. */
  lemma {:induction false} SplitsBack(l: seq<Message>)
    requires forall i | 0 <= i < |l| :: Fits(l[i]) && Back(l[i]) == l[i]
    ensures DecodeAll(EncodeAll(l)) == Stream(l)
    decreases |l|
  {
    if l != [] {
      var b := EncodeAll(l);
      RoundTrip(l[0], EncodeAll(l[1..]));
      assert b[|Encode(l[0])|..] == EncodeAll(l[1..]);
      SplitsBack(l[1..]);
      assert [l[0]] + l[1..] == l;
    }
  }

  // ----- in place -----

  /** `memcpy` into the buffer at the cursor. */
  method Write(buffer: array<byte>, cursor: nat, x: seq<byte>) returns (next: nat)
    requires cursor + |x| <= buffer.Length
    modifies buffer
    ensures next == cursor + |x| && buffer[..] == Splice(old(buffer[..]), cursor, x)
  {
    for i := 0 to |x|
      invariant buffer[..] == Splice(old(buffer[..]), cursor, x[..i])
    {
      ghost var was := buffer[..];
      buffer[cursor + i] := x[i];
      assert buffer[..] == was[cursor + i := x[i]];
      assert x[..i + 1] == x[..i] + [x[i]];
    }
    assert x[..|x|] == x;
    next := cursor + |x|;
  }

  /** `function_arg_encode` */
  method FunctionArgEncode(arg: Arg, buffer: array<byte>, start: nat) returns (cursor: nat)
    requires ArgFits(arg) && start + 5 + arg.size <= buffer.Length
    modifies buffer
    ensures cursor == start + |EncodeArg(arg)| && buffer[..] == Splice(old(buffer[..]), start, EncodeArg(arg))
  {
    ghost var was := buffer[..];
    cursor := Write(buffer, start, [arg.kind]);
    cursor := Write(buffer, cursor, Le32(arg.size));
    SpliceTwice(was, start, [arg.kind], Le32(arg.size));
    cursor := Write(buffer, cursor, arg.value);
    SpliceTwice(was, start, [arg.kind] + Le32(arg.size), arg.value);
  }

  /** `message_function_encode` */
  method MessageFunctionEncode(f: Function, buffer: array<byte>, start: nat) returns (cursor: nat)
    requires FunctionFits(f) && start + Size(f) <= buffer.Length
    modifies buffer
    ensures cursor == start + Size(f)
    ensures buffer[..] == Splice(old(buffer[..]), start, EncodeFunction(f))
  {
    hide Splice;
    ghost var was := buffer[..];
    cursor := Write(buffer, start, [LowByte(f.kind)]);
    cursor := Write(buffer, cursor, [|f.args|]);
    SpliceTwice(was, start, [LowByte(f.kind)], [|f.args|]);
    HeadBytes(f);
    cursor := FunctionArgsEncode(f.args, buffer, cursor);
    SpliceTwice(was, start, FunctionHead(f), EncodeArgs(f.args));
  }

  lemma HeadBytes(f: Function)
    requires |f.args| < 256
    ensures [LowByte(f.kind)] + [|f.args| as byte] == FunctionHead(f)
  {
  }

  /** Its loop over the arguments. */
  method FunctionArgsEncode(l: seq<Arg>, buffer: array<byte>, start: nat) returns (cursor: nat)
    requires (forall i | 0 <= i < |l| :: ArgFits(l[i])) && start + ArgsSize(l) <= buffer.Length
    modifies buffer
    ensures cursor == start + ArgsSize(l) && buffer[..] == Splice(old(buffer[..]), start, EncodeArgs(l))
  {
    hide Splice;
    hide EncodeArg;
    ghost var was := buffer[..];
    SpliceNone(was, start);
    cursor := start;
    for nargs := 0 to |l|
      invariant cursor == start + ArgsSize(l[..nargs]) <= start + ArgsSize(l)
      invariant buffer[..] == Splice(was, start, EncodeArgs(l[..nargs]))
    {
      SizeUpTo(l, nargs);
      cursor := FunctionArgEncode(l[nargs], buffer, cursor);
      EncodedUpTo(l, nargs);
      SpliceTwice(was, start, EncodeArgs(l[..nargs]), EncodeArg(l[nargs]));
    }
    assert l[..|l|] == l;
  }

  lemma {:induction false} EncodedUpTo(l: seq<Arg>, n: nat)
    requires n < |l| && forall i | 0 <= i < |l| :: ArgFits(l[i])
    ensures EncodeArgs(l[..n + 1]) == EncodeArgs(l[..n]) + EncodeArg(l[n])
    decreases n
  {
    if n > 0 {
      EncodedUpTo(l[1..], n - 1);
      assert l[..n + 1][1..] == l[1..][..n] && l[..n][1..] == l[1..][..n - 1];
    }
  }

  lemma {:induction false} SizeUpTo(l: seq<Arg>, n: nat)
    requires n < |l|
    ensures ArgsSize(l[..n + 1]) == ArgsSize(l[..n]) + 5 + l[n].size <= ArgsSize(l)
    decreases n
  {
    if n > 0 {
      SizeUpTo(l[1..], n - 1);
      assert l[..n + 1][1..] == l[1..][..n] && l[..n][1..] == l[1..][..n - 1];
    }
  }

  /** `message_encode`, with its one check: the buffer holds the header and what the header promises. */
  method MessageEncode(m: Message, buffer: array<byte>) returns (n: int)
    requires Fits(m) && (m.body.Return? ==> m.header.dataSize >= 4)
    modifies buffer
    ensures n == -1 <==> buffer.Length < 7 + m.header.dataSize
    ensures n == -1 ==> buffer[..] == old(buffer[..])
    ensures n != -1 ==> n == |Encode(m)| <= buffer.Length && buffer[..] == Encode(m) + old(buffer[..])[n..]
  {
    hide Splice;
    ghost var was := buffer[..];
    if buffer.Length < 7 + m.header.dataSize {
      return -1;
    }
    var cursor := HeaderEncode(m.header, buffer);
    match m.body {
      case Call(f) => cursor := MessageFunctionEncode(f, buffer, cursor);
      case Return(v) => cursor := Write(buffer, cursor, Le32(v));
      case Nothing => SpliceNone(buffer[..], cursor);
    }
    assert buffer[..] == Splice(Splice(was, 0, EncodeHeader(m.header)), 7, EncodeBody(m));
    SpliceTwice(was, 0, EncodeHeader(m.header), EncodeBody(m));
    SpliceFront(was, Encode(m));
    n := cursor;
  }

  /** `header_encode` */
  method HeaderEncode(h: Header, buffer: array<byte>) returns (cursor: nat)
    requires h.kind < 256 && h.caller < 65536 && h.dataSize < WORD && buffer.Length >= 7
    modifies buffer
    ensures cursor == 7 && buffer[..] == Splice(old(buffer[..]), 0, EncodeHeader(h))
  {
    hide Splice;
    ghost var was := buffer[..];
    cursor := Write(buffer, 0, [h.kind]);
    cursor := Write(buffer, cursor, Le16(h.caller));
    SpliceTwice(was, 0, [h.kind], Le16(h.caller));
    cursor := Write(buffer, cursor, Le32(h.dataSize));
    SpliceTwice(was, 0, [h.kind] + Le16(h.caller), Le32(h.dataSize));
  }

  lemma SpliceFront(s: seq<byte>, x: seq<byte>)
    requires |x| <= |s|
    ensures Splice(s, 0, x) == x + s[|x|..]
  {
  }

  /** `message_decode`: the cursor over the bytes received. */
  method MessageDecode(b: seq<byte>) returns (r: Decoded)
    ensures r == Decode(b)
  {
    if |b| < 7 {
      return Overrun;
    }
    var h := Header(b[0], FromLe16(b[1..3]), FromLe32(b[3..7]));
    var cursor := 7;
    if h.kind == MESSAGE_CALL {
      r := MessageFunctionDecode(b, h);
    } else if h.kind == MESSAGE_FUNCTION_RET {
      r := if |b| < 11 then Overrun else Decoded(Message(h, Return(FromLe32(b[7..11]))), 11);
    } else if h.kind == MESSAGE_NEW_ULT {
      r := Decoded(Message(h, Nothing), cursor);
    } else {
      r := Unknown;
    }
  }

  /** `message_function_decode` */
  method MessageFunctionDecode(b: seq<byte>, h: Header) returns (r: Decoded)
    requires |b| >= 7 && h == DecodeHeader(b) && h.kind == MESSAGE_CALL
    ensures r == Decode(b)
  {
    if |b| < 9 {
      return Overrun;
    }
    var kind, numArgs := b[7], b[8] as nat;
    if numArgs > 9 {
      return Overflow;
    }
    var a := DecodeArguments(b, 9, numArgs);
    r := if a.Short? then Overrun else if a.Wide? then Overflow
         else Decoded(Message(h, Call(Function(kind, a.args))), a.next);
  }

  /** Its loop over the arguments. */
  method DecodeArguments(b: seq<byte>, pos: nat, numArgs: nat) returns (r: Parsed)
    requires pos >= numArgs
    ensures r == DecodeArgs(b, pos, numArgs)
  {
    hide DecodeArg;
    var args: seq<Arg> := [];
    var cursor: nat := pos;
    ghost var all := DecodeArgs(b, pos, numArgs);
    ContinuedNone(all);
    for nargs := 0 to numArgs
      invariant cursor >= numArgs - nargs
      invariant all == Continued(args, DecodeArgs(b, cursor, numArgs - nargs))
    {
      var a := DecodeArg(b, cursor);
      if !a.Parsed? {
        return a;
      }
      ContinuedMore(args, a, DecodeArgs(b, a.next, numArgs - nargs - 1));
      args := args + a.args;
      cursor := a.next;
    }
    assert args + [] == args;
    r := Parsed(args, cursor);
  }

  lemma ContinuedNone(r: Parsed)
    ensures Continued([], r) == r
  {
    if r.Parsed? {
      assert [] + r.args == r.args;
    }
  }

  lemma ContinuedMore(args: seq<Arg>, a: Parsed, rest: Parsed)
    requires a.Parsed?
    ensures var r := if rest.Parsed? then Parsed(a.args + rest.args, rest.next) else rest;
            Continued(args, r) == Continued(args + a.args, rest)
  {
    if rest.Parsed? {
      assert args + (a.args + rest.args) == (args + a.args) + rest.args;
    }
  }

  function Continued(args: seq<Arg>, r: Parsed): (s: Parsed)
  {
    if r.Parsed? then Parsed(args + r.args, r.next) else r
  }
}
