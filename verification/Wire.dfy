/** The bytes of a message in plain numbers, written and read. */
module Wire {
  import opened Bytes
  import opened Codec

  /** The number in the four bytes at `p`, the lowest first. */
  function NumberAt(b: seq<byte>, p: nat): (n: nat)
    requires p + 4 <= |b|
  {
    b[p] as int + 256 * b[p + 1] as int + 65536 * b[p + 2] as int + 16777216 * b[p + 3] as int
  }

  predicate Word(b: seq<byte>, p: nat, n: nat)
  {
    p + 4 <= |b| && NumberAt(b, p) == n
  }

  /** Argument `a` lies from `p` to `q`: its type, four bytes of length, and as many bytes. */
  predicate Lies(b: seq<byte>, p: nat, a: Arg, q: nat)
  {
    && q == p + 5 + a.size <= |b| && b[p] as int == a.kind && Word(b, p + 1, a.size)
    && b[p + 5..q] == a.value
  }

  /** One argument after the other, from `p` to `q`. */
  predicate AllLie(b: seq<byte>, p: nat, l: seq<Arg>, q: nat)
    decreases |l|
  {
    if l == [] then p == q else Lies(b, p, l[0], p + 5 + l[0].size) && AllLie(b, p + 5 + l[0].size, l[1..], q)
  }

  /** What an argument may be: scalars of at most 8 bytes, other values of any length. */
  predicate Sendable(a: Arg)
  {
    a.size == |a.value| < 4294967296 && (a.kind == 1 || a.kind == 2 || ((a.kind == 0 || a.kind == 3) && a.size <= 8))
  }

  function Bytes5(l: seq<Arg>): (n: nat)
  {
    if l == [] then 0 else 5 + l[0].size + Bytes5(l[1..])
  }

  /** The first seven bytes: the message's type, two bytes of caller, four of size. */
  predicate HeaderLies(b: seq<byte>, h: Header)
  {
    && |b| >= 7 && b[0] as int == h.kind && b[1] as int + 256 * b[2] as int == h.caller
    && Word(b, 3, h.dataSize)
  }

  /** Bytes `b` are message `m`: type 1 is a call, 2 a return, 3 a new thread. */
  ghost predicate IsWritten(b: seq<byte>, m: Message)
  {
    && HeaderLies(b, m.header)
    && match m.body
       case Call(f) =>
         m.header.kind == 1 && |b| >= 9 && b[7] as int == f.kind % 256 && b[8] as int == |f.args|
         && AllLie(b, 9, f.args, |b|)
       case Return(v) => m.header.kind == 2 && |b| == 11 && Word(b, 7, v)
       case Nothing => m.header.kind == 3 && |b| == 7
  }

  /** The messages the code can send, in plain numbers. */
  predicate CanSend(m: Message)
  {
    && m.header.caller < 65536 && m.header.dataSize < 4294967296
    && match m.body
       case Call(f) =>
         m.header.kind == 1 && |f.args| <= 9 && (forall i | 0 <= i < |f.args| :: Sendable(f.args[i]))
         && m.header.dataSize == 2 + Bytes5(f.args)
       case Return(v) => m.header.kind == 2 && v < 4294967296
       case Nothing => m.header.kind == 3
  }

  // ----- writing -----

  lemma WordWritten(pre: seq<byte>, n: nat, rest: seq<byte>)
    requires n < 4294967296
    ensures Word(pre + Le32(n) + rest, |pre|, n)
  {
    Le32RoundTrip(n);
    assert (pre + Le32(n) + rest)[|pre|..|pre| + 4] == Le32(n);
  }

  lemma {:induction false} SameTotal(l: seq<Arg>)
    ensures ArgsSize(l) == Bytes5(l)
  {
    if l != [] {
      SameTotal(l[1..]);
    }
  }

  lemma ArgWritten(pre: seq<byte>, a: Arg, rest: seq<byte>)
    requires Sendable(a)
    ensures ArgFits(a) && Lies(pre + EncodeArg(a) + rest, |pre|, a, |pre| + 5 + a.size)
  {
    var b := pre + EncodeArg(a) + rest;
    assert b == (pre + [a.kind]) + Le32(a.size) + (a.value + rest);
    WordWritten(pre + [a.kind], a.size, a.value + rest);
    assert b[|pre| + 5..|pre| + 5 + a.size] == a.value;
  }

  lemma {:induction false} ArgsWritten(pre: seq<byte>, l: seq<Arg>)
    requires forall i | 0 <= i < |l| :: Sendable(l[i])
    ensures forall i | 0 <= i < |l| :: ArgFits(l[i])
    ensures AllLie(pre + EncodeArgs(l), |pre|, l, |pre + EncodeArgs(l)|)
    decreases |l|
  {
    hide EncodeArg;
    hide Lies;
    hide ArgFits;
    hide Sendable;
    forall i | 0 <= i < |l| ensures ArgFits(l[i]) {
      ArgWritten([], l[i], []);
    }
    if l != [] {
      var first := EncodeArg(l[0]);
      ArgWritten(pre, l[0], EncodeArgs(l[1..]));
      assert pre + EncodeArgs(l) == pre + first + EncodeArgs(l[1..]);
      ArgsWritten(pre + first, l[1..]);
    }
  }

  /** The messages the code can send are written as the layout says, and they are no fewer and no more than these. */
  lemma EncodeLayout(m: Message)
    ensures Fits(m) <==> CanSend(m)
    ensures CanSend(m) ==> IsWritten(Encode(m), m)
  {
    hide EncodeArgs;
    assert Fits(m) ==> CanSend(m) by {
      if m.body.Call? {
        SameTotal(m.body.f.args);
        assert Fits(m) ==> forall i | 0 <= i < |m.body.f.args| :: ArgFits(m.body.f.args[i]);
      }
    }
    if CanSend(m) {
      SentLayout(m);
    }
  }

  lemma SentLayout(m: Message)
    requires CanSend(m)
    ensures Fits(m) && IsWritten(Encode(m), m)
  {
    hide EncodeArgs;
    match m.body {
      case Call(f) =>
        SameTotal(f.args);
        ArgsWritten(EncodeHeader(m.header) + FunctionHead(f), f.args);
        assert Encode(m) == EncodeHeader(m.header) + FunctionHead(f) + EncodeArgs(f.args);
      case Return(v) =>
        WordWritten(EncodeHeader(m.header), v, []);
        assert Encode(m) == EncodeHeader(m.header) + Le32(v) + [];
      case Nothing =>
    }
    HeaderWritten(m.header, EncodeBody(m));
  }

  lemma HeaderWritten(h: Header, rest: seq<byte>)
    requires h.kind < 256 && h.caller < 65536 && h.dataSize < WORD
    ensures HeaderLies(EncodeHeader(h) + rest, h)
  {
    var b := EncodeHeader(h) + rest;
    WordWritten([h.kind] + Le16(h.caller), h.dataSize, rest);
    assert b == [h.kind] + Le16(h.caller) + Le32(h.dataSize) + rest;
  }

  // ----- reading -----

  /** As `Lies`, of one that is read: an argument of unknown type has no value, and the cursor goes back by one. */
  predicate Reads(b: seq<byte>, p: nat, a: Arg, q: nat)
  {
    if p + 5 <= |b| && b[p] > 3 then b[p] as int == a.kind && Word(b, p + 1, a.size) && a.value == [] && q + 1 == p
    else Lies(b, p, a, q) && (b[p] == 1 || b[p] == 2 || a.size <= 8)
  }

  predicate AllRead(b: seq<byte>, p: nat, l: seq<Arg>, q: nat)
    decreases |l|
  {
    if l == [] then p == q
    else
      var next := NextAt(p, l[0]);
      next >= 0 && Reads(b, p, l[0], next) && AllRead(b, next, l[1..], q)
  }

  /** There are not the bytes of an argument at `p`. */
  predicate Missing(b: seq<byte>, p: nat)
  {
    |b| < p + 5 || (b[p] <= 3 && |b| < p + 5 + NumberAt(b, p + 1))
  }

  /** A scalar at `p` is longer than the 8 bytes there are for it. */
  predicate TooWide(b: seq<byte>, p: nat)
  {
    p + 5 <= |b| && (b[p] == 0 || b[p] == 3) && 8 < NumberAt(b, p + 1) && p + 5 + NumberAt(b, p + 1) <= |b|
  }

  /** The first arguments are read, up to `q`, and the next one there is one too many for the bytes. */
  ghost predicate RunsOut(b: seq<byte>, p: nat, n: nat, l: seq<Arg>, q: nat)
  {
    |l| < n && AllRead(b, p, l, q) && Missing(b, q)
  }

  ghost predicate RunsOver(b: seq<byte>, p: nat, n: nat, l: seq<Arg>, q: nat)
  {
    |l| < n && AllRead(b, p, l, q) && TooWide(b, q)
  }

  ghost predicate CanRunOut(b: seq<byte>, p: nat, n: nat)
  {
    exists l, q: nat :: RunsOut(b, p, n, l, q)
  }

  ghost predicate CanRunOver(b: seq<byte>, p: nat, n: nat)
  {
    exists l, q: nat :: RunsOver(b, p, n, l, q)
  }

  lemma NumberIs(b: seq<byte>, p: nat)
    requires p + 4 <= |b|
    ensures FromLe32(b[p..p + 4]) == NumberAt(b, p)
  {
  }

  /** One argument is read exactly as it lies. */
  lemma ArgExact(b: seq<byte>, p: nat, a: Arg, q: nat)
    requires p > 0
    ensures DecodeArg(b, p) == Parsed([a], q) <==> Reads(b, p, a, q)
    ensures DecodeArg(b, p) == Short <==> Missing(b, p)
    ensures DecodeArg(b, p) == Wide <==> TooWide(b, p)
  {
    if p + 5 <= |b| {
      NumberIs(b, p + 1);
    }
  }

  lemma {:induction false} ArgsExact(b: seq<byte>, p: nat, n: nat, l: seq<Arg>, q: nat)
    requires p >= n
    ensures DecodeArgs(b, p, n) == Parsed(l, q) <==> |l| == n && AllRead(b, p, l, q)
    decreases n
  {
    hide DecodeArg;
    hide Reads;
    if n > 0 {
      var a := DecodeArg(b, p);
      if a.Parsed? {
        ArgExact(b, p, a.args[0], a.next);
        assert a.args == [a.args[0]];
        if l != [] {
          FirstRead(b, p, a.args[0], a.next);
          ArgsExact(b, a.next, n - 1, l[1..], q);
          assert l == [l[0]] + l[1..];
          SoleReading(b, p, l[0], a);
        }
      } else if l != [] {
        NoReading(b, p, l[0], a);
      }
    }
  }

  /** Where the argument after one that is read begins. */
  function NextAt(p: nat, a: Arg): (q: int)
  {
    if a.kind > 3 then p - 1 else p + 5 + a.size
  }

  lemma FirstRead(b: seq<byte>, p: nat, a: Arg, q: nat)
    requires p > 0 && Reads(b, p, a, q)
    ensures q == NextAt(p, a)
  {
  }

  lemma SoleReading(b: seq<byte>, p: nat, x: Arg, a: Parsed)
    requires p > 0 && a == DecodeArg(b, p) && a.Parsed? && |a.args| == 1
    ensures NextAt(p, x) >= 0 && Reads(b, p, x, NextAt(p, x)) <==> x == a.args[0]
  {
    ArgExact(b, p, a.args[0], a.next);
    if NextAt(p, x) >= 0 {
      ArgExact(b, p, x, NextAt(p, x));
    }
    FirstRead(b, p, a.args[0], a.next);
  }

  lemma NoReading(b: seq<byte>, p: nat, x: Arg, a: Parsed)
    requires p > 0 && a == DecodeArg(b, p) && !a.Parsed?
    ensures NextAt(p, x) >= 0 ==> !Reads(b, p, x, NextAt(p, x))
  {
    if NextAt(p, x) >= 0 {
      ArgExact(b, p, x, NextAt(p, x));
    }
  }

  /** When the arguments cannot all be read: the first that fails decides how. */
  lemma {:induction false} ArgsFail(b: seq<byte>, p: nat, n: nat)
    requires p >= n
    ensures DecodeArgs(b, p, n) == Short <==> CanRunOut(b, p, n)
    ensures DecodeArgs(b, p, n) == Wide <==> CanRunOver(b, p, n)
    decreases n
  {
    hide DecodeArg;
    hide Reads;
    hide Missing;
    hide TooWide;
    if n > 0 {
      var a := DecodeArg(b, p);
      ArgExact(b, p, Arg(0, 0, []), p);
      if a.Parsed? {
        ArgExact(b, p, a.args[0], a.next);
        assert a.args == [a.args[0]];
        FirstRead(b, p, a.args[0], a.next);
        ArgsFail(b, a.next, n - 1);
        FailBehind(b, p, n, a);
      } else {
        assert !a.Parsed? ==> forall l: seq<Arg>, q: nat | l != [] :: !AllRead(b, p, l, q) by {
          forall l: seq<Arg>, q: nat | l != [] ensures !AllRead(b, p, l, q) {
            NoReading(b, p, l[0], a);
          }
        }
        assert a == Short ==> RunsOut(b, p, n, [], p);
        assert a == Wide ==> RunsOver(b, p, n, [], p);
      }
    }
  }

  lemma FailBehind(b: seq<byte>, p: nat, n: nat, a: Parsed)
    requires p >= n > 0 && a == DecodeArg(b, p) && a.Parsed? && |a.args| == 1
    ensures CanRunOut(b, p, n) <==> CanRunOut(b, a.next, n - 1)
    ensures CanRunOver(b, p, n) <==> CanRunOver(b, a.next, n - 1)
  {
    hide DecodeArg;
    hide Reads;
    hide Missing;
    hide TooWide;
    var k := n - 1;
    ArgExact(b, p, a.args[0], a.next);
    assert a.args == [a.args[0]];
    FirstRead(b, p, a.args[0], a.next);
    forall l: seq<Arg>, q: nat ensures AllRead(b, p, a.args + l, q) <==> AllRead(b, a.next, l, q) {
      assert (a.args + l)[1..] == l;
    }
    forall l: seq<Arg>, q: nat | l != [] && AllRead(b, p, l, q) ensures AllRead(b, a.next, l[1..], q) {
      SoleReading(b, p, l[0], a);
    }
    if l, q: nat :| RunsOut(b, p, n, l, q) {
      assert l != [] ==> RunsOut(b, a.next, n - 1, l[1..], q);
    }
    if l, q: nat :| RunsOut(b, a.next, k, l, q) {
      assert RunsOut(b, p, n, a.args + l, q);
    }
    if l, q: nat :| RunsOver(b, p, n, l, q) {
      assert l != [] ==> RunsOver(b, a.next, n - 1, l[1..], q);
    }
    if l, q: nat :| RunsOver(b, a.next, k, l, q) {
      assert RunsOver(b, p, n, a.args + l, q);
    }
  }

  /** Bytes `b` begin with message `m`, which ends before `used`. */
  ghost predicate IsRead(b: seq<byte>, m: Message, used: nat)
  {
    && HeaderLies(b, m.header)
    && match m.body
       case Call(f) =>
         m.header.kind == 1 && |b| >= 9 && b[7] as int == f.kind && b[8] as int == |f.args| <= 9
         && AllRead(b, 9, f.args, used)
       case Return(v) => m.header.kind == 2 && Word(b, 7, v) && used == 11
       case Nothing => m.header.kind == 3 && used == 7
  }

  /** What is read from any bytes, and for which there is no message. */
  lemma DecodeLayout(b: seq<byte>, m: Message, used: nat)
    ensures Decode(b) == Decoded(m, used) <==> IsRead(b, m, used)
    ensures Decode(b) == Unknown <==> |b| >= 7 && b[0] != 1 && b[0] != 2 && b[0] != 3
    ensures Decode(b) == Overflow <==>
              |b| >= 9 && b[0] == 1 && (b[8] > 9 || CanRunOver(b, 9, b[8]))
    ensures Decode(b) == Overrun <==>
              || |b| < 7 || (b[0] == 2 && |b| < 11)
              || (b[0] == 1 && (|b| < 9 || (b[8] <= 9 && CanRunOut(b, 9, b[8]))))
  {
    hide DecodeArgs;
    hide AllRead;
    hide CanRunOut;
    hide CanRunOver;
    if |b| >= 7 {
      NumberIs(b, 3);
      if b[0] == 1 && |b| >= 9 && b[8] <= 9 {
        ArgsFail(b, 9, b[8]);
        ArgsExact(b, 9, b[8], if m.body.Call? then m.body.f.args else [], used);
      } else if b[0] == 2 && |b| >= 11 {
        NumberIs(b, 7);
      }
    }
  }

  /** A call of `malloc` by client 7, without arguments. */
  lemma RealCall()
    ensures Decode([1, 7, 0, 2, 0, 0, 0, 1, 0]) == Decoded(Message(Header(1, 7, 2), Call(Function(1, []))), 9)
  {
    DecodeLayout([1, 7, 0, 2, 0, 0, 0, 1, 0], Message(Header(1, 7, 2), Call(Function(1, []))), 9);
  }
}
