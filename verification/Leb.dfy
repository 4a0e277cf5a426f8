/** The WebAssembly encoder of the sweeper (src/sweeper.py): LEB128 integers, vectors and sections, read back by
    decoders that follow sections 5.2.2 (Integers) and 5.5.2 (Sections) of the WebAssembly Core Specification. */
module Leb {
  import opened Octets
  import opened Options

  // ---------- integers ----------

  function EncodeU(n: nat): (r: Bytes)
    ensures r != []
  {
    if n < 128 then [n as byte] else [(n % 128 + 128) as byte] + EncodeU(n / 128)
  }

  function Size(n: int): nat { if n < 0 then -n else n }

  function EncodeS(n: int): (r: Bytes)
    ensures r != []
    decreases Size(n)
  {
    if -64 <= n < 64 then [(n % 128) as byte] else [(n % 128 + 128) as byte] + EncodeS(n / 128)
  }

  /** An unsigned integer and what follows it. */
  function DecodeU(bs: Bytes): Option<(nat, Bytes)> {
    if bs == [] then None
    else if bs[0] < 128 then Some((bs[0] as nat, bs[1..]))
    else
      match DecodeU(bs[1..])
      case None => None
      case Some((m, rest)) => Some((128 * m + (bs[0] as nat - 128), rest))
  }

  function DecodeS(bs: Bytes): Option<(int, Bytes)> {
    if bs == [] then None
    else if bs[0] < 64 then Some((bs[0] as int, bs[1..]))
    else if bs[0] < 128 then Some((bs[0] as int - 128, bs[1..]))
    else
      match DecodeS(bs[1..])
      case None => None
      case Some((m, rest)) => Some((128 * m + (bs[0] as int - 128), rest))
  }

  lemma Divide(n: int)
    ensures n == 128 * (n / 128) + n % 128 && 0 <= n % 128 < 128
    ensures n >= 128 ==> 0 < n / 128 < n
    ensures n < -64 ==> n < n / 128 < 0
  {
  }

  function Encoded(n: int, signed: bool): Bytes
    requires signed || n >= 0
  {
    if signed then EncodeS(n) else EncodeU(n)
  }

  predicate IsLast(low: int, high: int, signed: bool) {
    if signed then (high == 0 && low < 64) || (high == -1 && low >= 64) else high == 0
  }

  lemma LastByte(n: int, signed: bool)
    requires (signed || n >= 0) && IsLast(n % 128, n / 128, signed)
    ensures Encoded(n, signed) == [(n % 128) as byte]
  {
    Divide(n);
  }

  lemma ByteBefore(n: int, signed: bool)
    requires (signed || n >= 0) && !IsLast(n % 128, n / 128, signed)
    ensures Size(n / 128) < Size(n) && (signed || n / 128 >= 0)
    ensures Encoded(n, signed) == [(n % 128 + 128) as byte] + Encoded(n / 128, signed)
  {
    Divide(n);
  }

  lemma Regroup(a: Bytes, b: Bytes, c: Bytes)
    ensures a + (b + c) == a + b + c
  {
  }

  /** The low seven bits of `n`, marked when more are to come. */
  method Send(out: Bytes, n: int, signed: bool) returns (more: Bytes, high: int, last: bool)
    requires signed || n >= 0
    ensures last ==> more == out + Encoded(n, signed)
    ensures !last ==> Size(high) < Size(n) && (signed || high >= 0) && more + Encoded(high, signed) == out + Encoded(n, signed)
  {
    var low := n % 128;
    high := n / 128;
    last := IsLast(low, high, signed);
    if last {
      LastByte(n, signed);
      more := out + [low as byte];
    } else {
      ByteBefore(n, signed);
      Regroup(out, [(low + 128) as byte], Encoded(high, signed));
      more := out + [(low + 128) as byte];
    }
  }

  /** The loop sends seven bits at a time, until what is left is only the sign. */
  method Encode(n0: int, signed: bool) returns (out: Bytes)
    requires signed || n0 >= 0
    ensures out == if signed then EncodeS(n0) else EncodeU(n0)
  {
    out := [];
    var n, last := n0, false;
    while !last
      invariant last ==> out == Encoded(n0, signed)
      invariant !last ==> (signed || n >= 0) && out + Encoded(n, signed) == Encoded(n0, signed)
      decreases !last, Size(n)
    {
      out, n, last := Send(out, n, signed);
    }
  }

  lemma {:induction false} UnsignedRoundTrip(n: nat, tail: Bytes)
    ensures DecodeU(EncodeU(n) + tail) == Some((n, tail))
  {
    Divide(n);
    var e := EncodeU(n) + tail;
    if n < 128 {
      assert e[1..] == tail;
    } else {
      assert e[1..] == EncodeU(n / 128) + tail;
      UnsignedRoundTrip(n / 128, tail);
    }
  }

  lemma {:induction false} SignedRoundTrip(n: int, tail: Bytes)
    ensures DecodeS(EncodeS(n) + tail) == Some((n, tail))
    decreases Size(n)
  {
    Divide(n);
    var e := EncodeS(n) + tail;
    if -64 <= n < 64 {
      assert e[1..] == tail;
    } else {
      assert e[1..] == EncodeS(n / 128) + tail;
      SignedRoundTrip(n / 128, tail);
    }
  }

  lemma {:induction false} DecodeShortens(bs: Bytes)
    ensures DecodeU(bs).Some? ==> |DecodeU(bs).value.1| < |bs|
    ensures DecodeS(bs).Some? ==> |DecodeS(bs).value.1| < |bs|
  {
    if bs != [] { DecodeShortens(bs[1..]); }
  }

  /** No other encoding that reads as `n` is shorter, and none of the same length differs. */
  lemma {:induction false} UnsignedShortest(bs: Bytes, n: nat, tail: Bytes)
    requires DecodeU(bs) == Some((n, tail))
    ensures |EncodeU(n)| + |tail| <= |bs|
    ensures |EncodeU(n)| + |tail| == |bs| ==> bs == EncodeU(n) + tail
  {
    Divide(n);
    var rest := bs[1..];
    assert bs == [bs[0]] + rest;
    if bs[0] >= 128 {
      var m := DecodeU(rest).value.0;
      UnsignedShortest(rest, m, tail);
      assert n == 128 * m + (bs[0] as nat - 128) && n / 128 == m;
      if n >= 128 { assert EncodeU(n) + tail == [bs[0]] + (EncodeU(m) + tail); }
    }
  }

  lemma {:induction false} SignedShortest(bs: Bytes, n: int, tail: Bytes)
    requires DecodeS(bs) == Some((n, tail))
    ensures |EncodeS(n)| + |tail| <= |bs|
    ensures |EncodeS(n)| + |tail| == |bs| ==> bs == EncodeS(n) + tail
  {
    Divide(n);
    var rest := bs[1..];
    assert bs == [bs[0]] + rest;
    if bs[0] >= 128 {
      var m := DecodeS(rest).value.0;
      SignedShortest(rest, m, tail);
      assert n == 128 * m + (bs[0] as int - 128) && n / 128 == m;
      if !(-64 <= n < 64) { assert EncodeS(n) + tail == [bs[0]] + (EncodeS(m) + tail); }
    }
  }

  function Power(k: nat): nat { if k == 0 then 1 else 128 * Power(k - 1) }

  /** A number takes at most `k` bytes exactly when it has at most 7k bits. */
  lemma {:induction false} UnsignedLengthIff(n: nat, k: nat)
    requires k >= 1
    ensures |EncodeU(n)| <= k <==> n < Power(k)
  {
    Divide(n);
    if n >= 128 && k > 1 { UnsignedLengthIff(n / 128, k - 1); }
    if k == 1 { assert Power(1) == 128 * Power(0); }
    if n < 128 { PowerGrows(k); }
  }

  lemma {:induction false} SignedLengthIff(n: int, k: nat)
    requires k >= 1
    ensures |EncodeS(n)| <= k <==> -64 * Power(k - 1) <= n < 64 * Power(k - 1)
    decreases Size(n)
  {
    Divide(n);
    PowerGrows(k);
    if !(-64 <= n < 64) && k > 1 { SignedLengthIff(n / 128, k - 1); }
  }

  lemma {:induction false} PowerGrows(k: nat)
    ensures Power(k) >= 1 && (k >= 1 ==> Power(k) >= 128)
  {
    if k > 0 { PowerGrows(k - 1); }
  }

  // ---------- vectors and sections ----------

  function Join(items: seq<Bytes>): Bytes {
    if items == [] then [] else items[0] + Join(items[1..])
  }

  function Vec(items: seq<Bytes>): Bytes { EncodeU(|items|) + Join(items) }

  function Blob(data: Bytes): Bytes { EncodeU(|data|) + data }

  function Section(sid: byte, items: seq<Bytes>): Bytes { [sid] + Blob(Vec(items)) }

  /** Exactly `n` bytes, and what follows them. */
  function Take(n: nat, bs: Bytes): Option<(Bytes, Bytes)> {
    if n <= |bs| then Some((bs[..n], bs[n..])) else None
  }

  function ParseBlob(bs: Bytes): Option<(Bytes, Bytes)> {
    match DecodeU(bs)
    case None => None
    case Some((n, rest)) => Take(n, rest)
  }

  /** A section: its id, its declared size and a body of that size. */
  function ParseSection(bs: Bytes): Option<((byte, Bytes), Bytes)> {
    if bs == [] then None
    else
      match ParseBlob(bs[1..])
      case None => None
      case Some((body, rest)) => Some(((bs[0], body), rest))
  }

  function ParseSections(bs: Bytes): Option<seq<(byte, Bytes)>>
    decreases |bs|
  {
    if bs == [] then Some([])
    else
      match ParseSection(bs)
      case None => None
      case Some((one, rest)) =>
        if |rest| >= |bs| then None
        else match ParseSections(rest) case None => None case Some(more) => Some([one] + more)
  }

  type Parser = Bytes -> Option<(Bytes, Bytes)>

  function ParseItems(n: nat, bs: Bytes, parse: Parser): Option<(seq<Bytes>, Bytes)> {
    if n == 0 then Some(([], bs))
    else
      match parse(bs)
      case None => None
      case Some((item, rest)) =>
        match ParseItems(n - 1, rest, parse) case None => None case Some((items, end)) => Some(([item] + items, end))
  }

  function ParseVec(bs: Bytes, parse: Parser): Option<(seq<Bytes>, Bytes)> {
    match DecodeU(bs)
    case None => None
    case Some((n, rest)) => ParseItems(n, rest, parse)
  }

  lemma BlobRoundTrip(data: Bytes, tail: Bytes)
    ensures ParseBlob(Blob(data) + tail) == Some((data, tail))
  {
    UnsignedRoundTrip(|data|, data + tail);
    assert Blob(data) + tail == EncodeU(|data|) + (data + tail);
    assert (data + tail)[..|data|] == data && (data + tail)[|data|..] == tail;
  }

  /** A parser that reads back each of these items, whatever follows. */
  ghost predicate Reads(parse: Parser, items: seq<Bytes>) {
    forall i, tail: Bytes :: 0 <= i < |items| ==> parse(items[i] + tail) == Some((items[i], tail))
  }

  lemma {:induction false} ItemsRoundTrip(items: seq<Bytes>, tail: Bytes, parse: Parser)
    requires Reads(parse, items)
    ensures ParseItems(|items|, Join(items) + tail, parse) == Some((items, tail))
  {
    if items == [] {
      assert Join(items) + tail == tail;
    } else {
      var rest := Join(items[1..]) + tail;
      assert Join(items) + tail == items[0] + rest;
      assert parse(items[0] + rest) == Some((items[0], rest));
      assert Reads(parse, items[1..]) by {
        forall i, t: Bytes | 0 <= i < |items[1..]| ensures parse(items[1..][i] + t) == Some((items[1..][i], t)) {
          assert items[1..][i] == items[i + 1];
        }
      }
      ItemsRoundTrip(items[1..], tail, parse);
      assert [items[0]] + items[1..] == items;
    }
  }

  /** A vector reads back as its items, with any parser that reads each of them. */
  lemma VecRoundTrip(items: seq<Bytes>, tail: Bytes, parse: Parser)
    requires Reads(parse, items)
    ensures ParseVec(Vec(items) + tail, parse) == Some((items, tail))
  {
    UnsignedRoundTrip(|items|, Join(items) + tail);
    assert Vec(items) + tail == EncodeU(|items|) + (Join(items) + tail);
    ItemsRoundTrip(items, tail, parse);
  }

  /** A section's body is recovered from its declared size, and its items from the body. */
  lemma SectionRoundTrip(sid: byte, items: seq<Bytes>, tail: Bytes, parse: Parser)
    requires Reads(parse, items)
    ensures ParseSection(Section(sid, items) + tail) == Some(((sid, Vec(items)), tail))
    ensures ParseVec(Vec(items), parse) == Some((items, []))
  {
    var bs := Section(sid, items) + tail;
    assert bs[0] == sid && bs[1..] == Blob(Vec(items)) + tail;
    BlobRoundTrip(Vec(items), tail);
    VecRoundTrip(items, [], parse);
    assert Vec(items) + [] == Vec(items);
  }

  datatype Part = Part(sid: byte, items: seq<Bytes>)

  function Sections(parts: seq<Part>): Bytes {
    if parts == [] then [] else Section(parts[0].sid, parts[0].items) + Sections(parts[1..])
  }

  function Bodies(parts: seq<Part>): seq<(byte, Bytes)> {
    if parts == [] then [] else [(parts[0].sid, Vec(parts[0].items))] + Bodies(parts[1..])
  }

  /** A whole module's sections are recovered one after the other, whatever is in them. */
  lemma {:induction false} SectionsRoundTrip(parts: seq<Part>)
    ensures ParseSections(Sections(parts)) == Some(Bodies(parts))
  {
    if parts != [] {
      var one, rest := parts[0], Sections(parts[1..]);
      var bs := Section(one.sid, one.items) + rest;
      assert bs[0] == one.sid && bs[1..] == Blob(Vec(one.items)) + rest;
      BlobRoundTrip(Vec(one.items), rest);
      SectionsRoundTrip(parts[1..]);
    }
  }
}
