/**
 The contract that the model asks of the JSON codec can be met: a codec that satisfies it. It writes
 a message as a list of integers, each in unary.
 */
module CodecExists {
  import opened Wrappers

  import opened Envelope

  // ----- Integers as bytes ------------------------------------------------------------------

  function Unary(n: nat): (b: bytes)
    ensures b != [] && forall i :: 0 <= i < |b| ==> b[i] == 1 || b[i] == 2
  {
    if n == 0 then [2] else [1] + Unary(n - 1)
  }

  function Integer(n: int): (b: bytes)
    ensures |b| >= 2 && forall i :: 0 <= i < |b| ==> b[i] == 1 || b[i] == 2
  {
    if n >= 0 then [1] + Unary(n) else [2] + Unary(-n)
  }

  function Integers(ns: seq<int>): (b: bytes)
    ensures b != [] && forall i :: 0 <= i < |b| ==> 1 <= b[i] <= 3
  {
    if ns == [] then [3] else Integer(ns[0]) + Integers(ns[1..])
  }

  /** No number's text is the start of another's. */
  lemma {:induction false} UnaryIsPrefixFree(a: nat, b: nat, x: bytes, y: bytes)
    requires Unary(a) + x == Unary(b) + y
    ensures a == b && x == y
  {
    assert (Unary(a) + x)[0] == (if a == 0 then 2 else 1) && (Unary(b) + y)[0] == (if b == 0 then 2 else 1);
    if a == 0 {
      assert x == ([2] + x)[1..] && y == ([2] + y)[1..];
    } else {
      assert Unary(a) + x == [1] + (Unary(a - 1) + x) && Unary(b) + y == [1] + (Unary(b - 1) + y);
      assert Unary(a - 1) + x == ([1] + (Unary(a - 1) + x))[1..] && Unary(b - 1) + y == ([1] + (Unary(b - 1) + y))[1..];
      UnaryIsPrefixFree(a - 1, b - 1, x, y);
    }
  }

  lemma IntegerIsPrefixFree(a: int, b: int, x: bytes, y: bytes)
    requires Integer(a) + x == Integer(b) + y
    ensures a == b && x == y
  {
    var m: nat, n: nat := if a >= 0 then a else -a, if b >= 0 then b else -b;
    var p: byte, q: byte := if a >= 0 then 1 else 2, if b >= 0 then 1 else 2;
    hide Unary;
    assert Integer(a) + x == [p] + (Unary(m) + x) && Integer(b) + y == [q] + (Unary(n) + y);
    assert ([p] + (Unary(m) + x))[0] == p && ([q] + (Unary(n) + y))[0] == q;
    assert ([p] + (Unary(m) + x))[1..] == Unary(m) + x && ([q] + (Unary(n) + y))[1..] == Unary(n) + y;
    UnaryIsPrefixFree(m, n, x, y);
  }

  lemma FirstByte(ns: seq<int>)
    ensures Integers(ns)[0] == 3 <==> ns == []
  {
    assert ns != [] ==> Integers(ns)[0] == Integer(ns[0])[0];
  }

  lemma {:induction false} IntegersAreInjective(a: seq<int>, b: seq<int>)
    requires Integers(a) == Integers(b)
    ensures a == b
  {
    hide Integer;
    FirstByte(a);
    FirstByte(b);
    if a != [] && b != [] {
      IntegerIsPrefixFree(a[0], b[0], Integers(a[1..]), Integers(b[1..]));
      IntegersAreInjective(a[1..], b[1..]);
      assert a == [a[0]] + a[1..] && b == [b[0]] + b[1..];
    }
  }

  // ----- Messages as integers ---------------------------------------------------------------

  function Chars(s: string): (ns: seq<int>)
    ensures |ns| == |s| && forall i :: 0 <= i < |s| ==> ns[i] == s[i] as int
  {
    seq(|s|, i requires 0 <= i < |s| => s[i] as int)
  }

  function Bytes(s: bytes): (ns: seq<int>)
    ensures |ns| == |s| && forall i :: 0 <= i < |s| ==> ns[i] == s[i] as int
  {
    seq(|s|, i requires 0 <= i < |s| => s[i] as int)
  }

  lemma CharsAreInjective(a: string, b: string)
    requires Chars(a) == Chars(b)
    ensures a == b
  {
    forall i | 0 <= i < |a|
      ensures a[i] == b[i]
    {
      assert Chars(a)[i] == Chars(b)[i];
    }
  }

  lemma BytesAreInjective(a: bytes, b: bytes)
    requires Bytes(a) == Bytes(b)
    ensures a == b
  {
    forall i | 0 <= i < |a|
      ensures a[i] == b[i]
    {
      assert Bytes(a)[i] == Bytes(b)[i];
    }
  }

  function Text(raw: Option<Raw>): bytes {
    if raw.Some? then raw.value else []
  }

  function Flag(b: bool): int {
    if b then 1 else 0
  }

  /** A message as a few numbers, a text and a name. */
  datatype Flat = Flat(tag: int, id: int, one: int, two: int, text: bytes, name: string)

  function FlatRequest(r: Request): Flat {
    Flat(0, r.id, Flag(r.params.Some?), 0, Text(r.params), r.name)
  }

  function FlatOut(m: Outgoing): Flat {
    match m
    case Notif(n) => Flat(1, 0, 0, 0, n.params, n.name)
    case Resp(r) =>
      if r.error == None then Flat(3, r.id, Flag(r.result.Some?), 0, Text(r.result), "")
      else
        var e := r.error.value;
        Flat(2, r.id, Flag(r.result.Some?), e.code, Text(r.result), e.message)
  }

  function Encode(f: Flat): bytes {
    Integers([f.tag, f.id, f.one, f.two, |f.text|] + (Bytes(f.text) + Chars(f.name)))
  }

  lemma EncodeIsInjective(a: Flat, b: Flat)
    requires Encode(a) == Encode(b)
    ensures a == b
  {
    var heada, headb := [a.tag, a.id, a.one, a.two, |a.text|], [b.tag, b.id, b.one, b.two, |b.text|];
    var taila, tailb := Bytes(a.text) + Chars(a.name), Bytes(b.text) + Chars(b.name);
    IntegersAreInjective(heada + taila, headb + tailb);
    assert (heada + taila)[..5] == heada && (headb + tailb)[..5] == headb;
    assert (heada + taila)[5..] == taila && (headb + tailb)[5..] == tailb;
    assert heada[0] == headb[0] && heada[1] == headb[1] && heada[2] == headb[2];
    assert heada[3] == headb[3] && heada[4] == headb[4];
    assert taila[..|a.text|] == Bytes(a.text) && tailb[..|b.text|] == Bytes(b.text);
    assert taila[|a.text|..] == Chars(a.name) && tailb[|b.text|..] == Chars(b.name);
    BytesAreInjective(a.text, b.text);
    CharsAreInjective(a.name, b.name);
  }

  lemma EncodeIsClean(f: Flat)
    ensures Clean(Encode(f))
  {
  }

  ghost predicate IsRequest(line: bytes, r: Request) {
    line == Encode(FlatRequest(r))
  }

  ghost predicate IsOut(line: bytes, m: Outgoing) {
    line == Encode(FlatOut(m))
  }

  ghost function DecodeRequest(line: bytes): Result<Request, string> {
    if r: Request :| IsRequest(line, r) then Ok(r) else Err("not a request")
  }

  ghost function DecodeOut(line: bytes): Option<Outgoing> {
    if m: Outgoing :| IsOut(line, m) then Some(m) else None
  }

  ghost function SomeCodec(): Codec {
    Codec(
      r => Encode(FlatRequest(r)),
      line => DecodeRequest(line),
      m => Encode(FlatOut(m)),
      line => if DecodeOut(line).Some? then Some(DecodeOut(line).value.Notif?) else None,
      line => match DecodeOut(line) case Some(Resp(r)) => Some(r) case _ => None,
      line => match DecodeOut(line) case Some(Notif(n)) => Some(n) case _ => None,
      []
    )
  }

  lemma RequestsDecode(r: Request)
    ensures DecodeRequest(Encode(FlatRequest(r))) == Ok(r)
  {
    var line := Encode(FlatRequest(r));
    hide Encode;
    assert IsRequest(line, r);
    var r' := DecodeRequest(line).value;
    EncodeIsInjective(FlatRequest(r), FlatRequest(r'));
  }

  lemma OutsDecode(m: Outgoing)
    ensures DecodeOut(Encode(FlatOut(m))) == Some(m)
  {
    var line := Encode(FlatOut(m));
    hide Encode;
    assert IsOut(line, m);
    var m' := DecodeOut(line).value;
    EncodeIsInjective(FlatOut(m), FlatOut(m'));
  }

  /** The contract of the codec is satisfiable. */
  lemma AValidCodec()
    ensures SomeCodec().Valid()
  {
    hide Encode, DecodeOut, DecodeRequest, FlatOut, FlatRequest;
    var codec := SomeCodec();
    forall r
      ensures Clean(codec.encodeRequest(r)) && codec.decodeRequest(codec.encodeRequest(r)) == Ok(r)
    {
      EncodeIsClean(FlatRequest(r));
      RequestsDecode(r);
    }
    forall m
      ensures Clean(codec.encodeOut(m)) && DecodeOut(codec.encodeOut(m)) == Some(m)
    {
      EncodeIsClean(FlatOut(m));
      OutsDecode(m);
    }
  }
}
