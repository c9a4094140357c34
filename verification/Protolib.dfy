/** Length-prefixed messages of `protolib.py`: variable-length numbers written and read back,
    and when a whole stream of messages survives. */
module Protolib {
  import opened Collections
  import opened Powers

  type Bytes = seq<nat>

  // ----- Numbers -----

  /** The bitwise or of the low `k` bits. */
  function OrBits(a: nat, b: nat, k: nat): (r: nat)
    ensures r < Exp2(k)
    decreases k
  {
    if k == 0 then 0
    else 2 * OrBits(a / 2, b / 2, k - 1) + if a % 2 == 1 || b % 2 == 1 then 1 else 0
  }

  lemma {:induction false} OrZero(b: nat, k: nat)
    requires b < Exp2(k)
    ensures OrBits(0, b, k) == b
    decreases k
  {
    if k > 0 { OrZero(b / 2, k - 1); }
  }

  lemma {:induction false} OrBitsAt(a: nat, b: nat, k: nat, j: nat)
    ensures Bit(OrBits(a, b, k), j) <==> j < k && (Bit(a, j) || Bit(b, j))
    decreases j, k
  {
    if k == 0 {
      ZeroAt(j);
    } else if j > 0 {
      OrBitsAt(a / 2, b / 2, k - 1, j - 1);
      assert OrBits(a, b, k) / 2 == OrBits(a / 2, b / 2, k - 1);
    }
  }

  /** A number in groups of seven bits, lowest first; all bytes but the last have their top
      bit set. */
  function Encode(v: nat): (s: Bytes)
    ensures s != []
  {
    if v < 128 then [v] else [128 + v % 128] + Encode(v / 128)
  }

  /** The bytes of one number: all but the last have their top bit set. */
  ghost predicate Delimited(s: Bytes) {
    s != [] && s[|s| - 1] < 128 && forall i :: 0 <= i < |s| - 1 ==> s[i] >= 128
  }

  /** The number that groups of seven bits stand for. */
  function Number(s: Bytes): nat {
    if s == [] then 0 else s[0] % 128 + 128 * Number(s[1..])
  }

  lemma OneByteMore(b: nat, t: Bytes)
    requires b >= 128 && Delimited(t)
    ensures Delimited([b] + t) && Number([b] + t) == b % 128 + 128 * Number(t)
  {
    var s := [b] + t;
    assert s[1..] == t;
    forall i | 0 <= i < |s| - 1 ensures s[i] >= 128 { if i > 0 { assert s[i] == t[i - 1]; } }
  }

  /** What the encoder writes is the number in that format, and ends where the format says. */
  lemma {:induction false} EncodeIsRight(v: nat)
    ensures Number(Encode(v)) == v && Delimited(Encode(v))
    ensures |Encode(v)| == 1 <==> v < 128
  {
    if v < 128 {
      OneByte(v);
    } else {
      hide Number, Delimited;
      EncodeIsRight(v / 128);
      OneByteMore(128 + v % 128, Encode(v / 128));
    }
  }

  lemma OneByte(v: nat)
    requires v < 128
    ensures Number([v]) == v && Delimited([v])
  {
    assert [v][1..] == [];
  }

  lemma SevenBits(k: nat)
    requires k == 7
    ensures Exp2(k) == 128
  {
    assert Exp2(k - 3) == 16 by { assert Exp2(k - 5) == 4; }
    Exp2Add(k - 3, k - 4);
  }

  /** The bitwise or of two groups. */
  function OrGroup(a: nat, b: nat): (r: nat)
    ensures r < 128
    ensures a == 0 && b < 128 ==> r == b
  {
    var k := 7;
    SevenBits(k);
    if a == 0 && b < 128 then OrZero(b, k); OrBits(a, b, k) else OrBits(a, b, k)
  }

  /** What the decoder makes of the bytes of one number: its shift never advances, so the
      groups fall on top of each other. */
  function Merged(s: Bytes): (r: nat)
    ensures r < 128
  {
    if s == [] then 0 else OrGroup(Merged(s[..|s| - 1]), s[|s| - 1] % 128)
  }

  /** The seven low bits of some group have the bit set. */
  ghost predicate BitOfSome(s: Bytes, j: nat) { j < 7 && exists i :: 0 <= i < |s| && Bit(s[i] % 128, j) }

  lemma OrGroupAt(a: nat, b: nat, j: nat)
    ensures Bit(OrGroup(a, b), j) <==> j < 7 && (Bit(a, j) || Bit(b, j))
  {
    hide Bit, OrBits;
    OrBitsAt(a, b, 7, j);
  }

  lemma {:induction false} MergedAt(s: Bytes, j: nat)
    ensures Bit(Merged(s), j) <==> BitOfSome(s, j)
    decreases |s|
  {
    hide Bit, OrGroup;
    if s == [] {
      ZeroAt(j);
    } else {
      var n := |s| - 1;
      MergedAt(s[..n], j);
      OrGroupAt(Merged(s[..n]), s[n] % 128, j);
      BitOfMore(s, j);
    }
  }

  lemma BitOfMore(s: Bytes, j: nat)
    requires s != []
    ensures BitOfSome(s, j) <==> BitOfSome(s[..|s| - 1], j) || (j < 7 && Bit(s[|s| - 1] % 128, j))
  {
    hide Bit;
    assert forall i :: 0 <= i < |s| - 1 ==> s[..|s| - 1][i] == s[i];
  }

  lemma MergedBits(s: Bytes)
    ensures forall j: nat :: Bit(Merged(s), j) <==> BitOfSome(s, j)
  {
    forall j: nat ensures Bit(Merged(s), j) <==> BitOfSome(s, j) { MergedAt(s, j); }
  }

  /** The decoder inverts the encoder exactly on numbers below 128. */
  lemma MergedIsNumberIff(v: nat)
    ensures Merged(Encode(v)) == v <==> v < 128
  {
    hide OrGroup;
    if v < 128 { assert Encode(v)[..0] == []; }
  }

  lemma EncodeStep(bits: nat, rest: nat)
    requires bits < 128
    ensures Encode(bits + 128 * rest) == if rest == 0 then [bits] else [128 + bits] + Encode(rest)
  {
    var v := bits + 128 * rest;
    assert v / 128 == rest && v % 128 == bits;
  }

  method EncodeVarint(value: nat) returns (out: Bytes)
    ensures out == Encode(value)
  {
    hide Encode;
    var bits: nat, rest: nat := value % 128, value / 128;
    out := [];
    while rest != 0
      invariant bits < 128 && out + Encode(bits + 128 * rest) == Encode(value)
      decreases rest
    {
      EncodeStep(bits, rest);
      out := out + [128 + bits];
      assert rest == rest % 128 + 128 * (rest / 128);
      bits, rest := rest % 128, rest / 128;
    }
    EncodeStep(bits, 0);
    out := out + [bits];
  }

  /** Read one number: its merged groups, how many bytes it took, and what is left.  At the
      end of the stream everything is used up and the answer is 0 and 0. */
  method DecodeVarint(stream: Bytes) returns (result: nat, pos: nat, rest: Bytes)
    ensures pos <= |stream|
    ensures pos > 0 ==> Delimited(stream[..pos]) && result == Merged(stream[..pos]) && rest == stream[pos..]
    ensures pos > 0 ==> forall j: nat :: Bit(result, j) <==> BitOfSome(stream[..pos], j)
    ensures pos == 0 ==> result == 0 && rest == [] && forall i :: 0 <= i < |stream| ==> stream[i] >= 128
  {
    hide OrGroup, Bit, BitOfSome;
    result, pos := 0, 0;
    while true
      invariant pos <= |stream| && result == Merged(stream[..pos])
      invariant forall i :: 0 <= i < pos ==> stream[i] >= 128
      decreases |stream| - pos
    {
      if pos == |stream| { return 0, 0, []; }
      var b := stream[pos];
      assert stream[..pos + 1][..pos] == stream[..pos];
      result := OrGroup(result, b % 128);
      pos := pos + 1;
      if b < 128 {
        MergedBits(stream[..pos]);
        return result, pos, stream[pos..];
      }
    }
  }

  /** Numbers end where they end: two readings of a stream agree. */
  lemma DelimitedOnce(stream: Bytes, a: nat, b: nat)
    requires 0 < a <= |stream| && 0 < b <= |stream| && Delimited(stream[..a]) && Delimited(stream[..b])
    ensures a == b
  {
    EndsFirst(stream, a, b);
    EndsFirst(stream, b, a);
  }

  lemma EndsFirst(stream: Bytes, a: nat, b: nat)
    requires 0 < a <= |stream| && 0 < b <= |stream| && Delimited(stream[..a]) && Delimited(stream[..b])
    ensures a >= b
  {
    assert stream[a - 1] < 128 by { assert stream[..a][a - 1] == stream[a - 1]; }
    forall i | 0 <= i < b - 1 ensures stream[i] >= 128 { assert stream[..b][i] == stream[i]; }
  }

  // ----- Messages -----

  function EncodeMessage(body: Bytes): Bytes { Encode(|body|) + body }

  function EncodeAll(bodies: seq<Bytes>): Bytes {
    if bodies == [] then [] else EncodeMessage(bodies[0]) + EncodeAll(bodies[1..])
  }

  /** The end of the first number of a stream; 0 if it does not end. */
  ghost function NumberEnd(stream: Bytes): (n: nat)
    ensures n <= |stream|
    ensures n > 0 ==> Delimited(stream[..n])
    ensures n == 0 ==> forall i :: 0 <= i < |stream| ==> stream[i] >= 128
  {
    if stream == [] then 0
    else if stream[0] < 128 then 1
    else
      var n := NumberEnd(stream[1..]);
      assert n > 0 ==> stream[1..][..n] == stream[..n + 1][1..];
      if n == 0 then 0 else n + 1
  }

  function Prefix(s: Bytes, n: nat): Bytes { if n <= |s| then s[..n] else s }

  function Suffix(s: Bytes, n: nat): Bytes { if n <= |s| then s[n..] else [] }

  /** What one reading of a message returns and leaves. */
  ghost function Decoded(stream: Bytes): (r: (Option<Bytes>, Bytes))
    ensures r.0.Some? ==> |r.1| < |stream|
  {
    var n := NumberEnd(stream);
    if n == 0 then (None, [])
    else
      var size, rest := Merged(stream[..n]), stream[n..];
      if size == 0 then (None, rest) else (Some(Prefix(rest, size)), Suffix(rest, size))
  }

  lemma NumberEndIs(stream: Bytes, n: nat)
    requires 0 < n <= |stream| && Delimited(stream[..n])
    ensures NumberEnd(stream) == n
  {
    assert stream[..n][n - 1] == stream[n - 1];
    if NumberEnd(stream) > 0 { DelimitedOnce(stream, NumberEnd(stream), n); }
  }

  /** Read a message; an empty one cannot be told from the end of the stream. */
  method DecodeMessage(stream: Bytes) returns (body: Option<Bytes>, rest: Bytes)
    ensures (body, rest) == Decoded(stream)
  {
    hide Merged;
    var size, pos;
    size, pos, rest := DecodeVarint(stream);
    ghost var n := NumberEnd(stream);
    assert n == pos by {
      if pos > 0 { NumberEndIs(stream, pos); }
      if n > 0 { assert stream[..n][n - 1] == stream[n - 1]; }
    }
    if size == 0 {
      body := None;
    } else {
      body, rest := Some(Prefix(rest, size)), Suffix(rest, size);
    }
  }

  ghost predicate Readable(body: Bytes) { 1 <= |body| <= 127 }

  /** A message is read back, with the stream behind it intact, exactly when it has between 1
      and 127 bytes. */
  lemma MessageReadsBackIff(body: Bytes, rest: Bytes)
    ensures Decoded(EncodeMessage(body) + rest).0 == Some(body) <==> Readable(body)
    ensures Readable(body) ==> Decoded(EncodeMessage(body) + rest).1 == rest
  {
    var head, v := Encode(|body|), |body|;
    var stream := EncodeMessage(body) + rest;
    assert stream == head + (body + rest);
    EncodeIsRight(v);
    assert stream[..|head|] == head && stream[|head|..] == body + rest;
    NumberEndIs(stream, |head|);
    MergedIsNumberIff(v);
    hide Merged, Encode, NumberEnd;
    var size := Merged(head);
    if v < 128 {
      assert (body + rest)[..v] == body && (body + rest)[v..] == rest;
    }
  }

  /** Reading messages until one cannot be read. */
  ghost function DecodedAll(stream: Bytes): seq<Bytes>
    decreases |stream|
  {
    var (body, rest) := Decoded(stream);
    if body.None? then [] else [body.value] + DecodedAll(rest)
  }

  method DecodeAll(stream: Bytes) returns (bodies: seq<Bytes>)
    ensures bodies == DecodedAll(stream)
  {
    hide Decoded;
    bodies := [];
    var rest := stream;
    while true
      invariant bodies + DecodedAll(rest) == DecodedAll(stream)
      decreases |rest|
    {
      ghost var before := rest;
      var body;
      body, rest := DecodeMessage(rest);
      if body.None? { break; }
      assert DecodedAll(before) == [body.value] + DecodedAll(rest);
      bodies := bodies + [body.value];
    }
  }

  /** A stream of messages is read back exactly when each of them can be. */
  lemma {:induction false} StreamReadsBackIff(bodies: seq<Bytes>)
    ensures DecodedAll(EncodeAll(bodies)) == bodies <==> forall i :: 0 <= i < |bodies| ==> Readable(bodies[i])
    decreases |bodies|
  {
    hide Encode, NumberEnd, Merged, Decoded, EncodeMessage, Readable;
    if bodies == [] {
      NothingLeft();
    } else {
      var first, others := bodies[0], bodies[1..];
      MessageReadsBackIff(first, EncodeAll(others));
      StreamReadsBackIff(others);
      assert bodies == [first] + others;
    }
  }

  lemma NothingLeft()
    ensures Decoded([]).0.None?
  {
  }
}
