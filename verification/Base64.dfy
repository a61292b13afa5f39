/**
 Base64 in the standard alphabet (section 4 of RFC 4648) and the URL alphabet with '.' for
 padding: the encoder and the forgiving decoder are inverse to each other.
 */
module Base64 {
  import opened Values
  import opened Seqs

  type Digit = x: int | 0 <= x < 64

  datatype Charset = Standard | Url

  const NUL: char := 0 as char

  // ---------- the alphabets ----------

  function Char(cs: Charset, d: Digit): char {
    if d < 26 then (d + 'A' as int) as char
    else if d < 52 then (d - 26 + 'a' as int) as char
    else if d < 62 then (d - 52 + '0' as int) as char
    else if d == 62 then (if cs.Standard? then '+' else '-')
    else (if cs.Standard? then '/' else '_')
  }

  function PadChar(cs: Charset): char { if cs.Standard? then '=' else '.' }

  /** The reverse table: a digit, -1 invalid, -2 skipped, -3 padding. */
  function Reverse(cs: Charset, c: char): (r: int)
    ensures -3 <= r < 64
  {
    if 'A' <= c <= 'Z' then c as int - 'A' as int
    else if 'a' <= c <= 'z' then c as int - 'a' as int + 26
    else if '0' <= c <= '9' then c as int - '0' as int + 52
    else if c == Char(cs, 62) then 62
    else if c == Char(cs, 63) then 63
    else if c == PadChar(cs) then -3
    else if 1 <= c as int <= 0x20 then -2
    else -1
  }

  /** The tables are inverse to each other. */
  lemma Tables(cs: Charset, d: Digit)
    ensures Reverse(cs, Char(cs, d)) == d && 0 < Char(cs, d) as int < 128
  {
  }

  lemma TablesBack(cs: Charset, c: char)
    requires Reverse(cs, c) >= 0
    ensures Char(cs, Reverse(cs, c)) == c && 0 < c as int < 128
  {
  }

  // ---------- digits and bytes ----------

  // Three bytes x, y, z make the digits D1(x), D2(x, y), D3(y, z), D4(z), and four digits
  // a, b, c, d make the bytes B1(a, b), B2(b, c), B3(c, d).

  function D1(x: Byte): Digit { x / 4 }
  function D2(x: Byte, y: Byte): Digit { x % 4 * 16 + y / 16 }
  function D3(y: Byte, z: Byte): Digit { y % 16 * 4 + z / 64 }
  function D4(z: Byte): Digit { z % 64 }

  function B1(a: Digit, b: Digit): Byte { a * 4 + b / 16 }
  function B2(b: Digit, c: Digit): Byte { b % 16 * 16 + c / 4 }
  function B3(c: Digit, d: Digit): Byte { c % 4 * 64 + d }

  lemma BytesBack(x: Byte, y: Byte, z: Byte)
    ensures B1(D1(x), D2(x, y)) == x && B2(D2(x, y), D3(y, z)) == y && B3(D3(y, z), D4(z)) == z
  {
  }

  lemma DigitsBack(a: Digit, b: Digit, c: Digit, d: Digit)
    ensures D1(B1(a, b)) == a && D2(B1(a, b), B2(b, c)) == b && D3(B2(b, c), B3(c, d)) == c && D4(B3(c, d)) == d
  {
  }

  /** The digits of a byte string, four for every three bytes. */
  function Pack(bs: seq<Byte>): (ds: seq<Digit>)
    ensures |ds| == 4 * (|bs| / 3) + (if |bs| % 3 == 0 then 0 else 1 + |bs| % 3)
  {
    if bs == [] then []
    else if |bs| == 1 then [D1(bs[0]), D2(bs[0], 0)]
    else if |bs| == 2 then [D1(bs[0]), D2(bs[0], bs[1]), D3(bs[1], 0)]
    else [D1(bs[0]), D2(bs[0], bs[1]), D3(bs[1], bs[2]), D4(bs[2])] + Pack(bs[3..])
  }

  /** The bytes that digits complete. */
  function Done(ds: seq<Digit>): (bs: seq<Byte>)
    ensures |bs| == 3 * (|ds| / 4) + (if |ds| % 4 < 2 then 0 else |ds| % 4 - 1)
  {
    if |ds| < 2 then []
    else if |ds| == 2 then [B1(ds[0], ds[1])]
    else if |ds| == 3 then [B1(ds[0], ds[1]), B2(ds[1], ds[2])]
    else [B1(ds[0], ds[1]), B2(ds[1], ds[2]), B3(ds[2], ds[3])] + Done(ds[4..])
  }

  /** The bits of the byte under way. */
  function Partial(ds: seq<Digit>): Byte {
    if ds == [] then 0
    else if |ds| == 1 then B1(ds[0], 0)
    else if |ds| == 2 then B2(ds[1], 0)
    else if |ds| == 3 then B3(ds[2], 0)
    else Partial(ds[4..])
  }

  /** Digits that stand for whole bytes: no lone digit, no stray bits. */
  predicate Whole(ds: seq<Digit>) { |ds| % 4 != 1 && Partial(ds) == 0 }

  lemma DoneOne(a: Digit)
    ensures Done([a]) == [] && Partial([a]) == B1(a, 0)
  {
  }

  lemma DoneTwo(a: Digit, b: Digit)
    ensures Done([a, b]) == [B1(a, b)] && Partial([a, b]) == B2(b, 0)
  {
  }

  lemma DoneThree(a: Digit, b: Digit, c: Digit)
    ensures Done([a, b, c]) == [B1(a, b), B2(b, c)] && Partial([a, b, c]) == B3(c, 0)
  {
  }

  /** Bits that are not there are zero. */
  lemma NoStrayBits(x: Byte)
    ensures B2(D2(x, 0), 0) == 0 && B3(D3(x, 0), 0) == 0
  {
  }

  /** Without stray bits the last digit comes back. */
  lemma LastOfTwo(a: Digit, b: Digit)
    requires B2(b, 0) == 0
    ensures D2(B1(a, b), 0) == b
  {
    assert b % 16 == 0;
  }

  lemma LastOfThree(b: Digit, c: Digit)
    requires B3(c, 0) == 0
    ensures D3(B2(b, c), 0) == c
  {
    assert c % 4 == 0;
  }

  lemma PackOne(x: Byte)
    ensures Pack([x]) == [D1(x), D2(x, 0)]
  {
  }

  lemma PackTwo(x: Byte, y: Byte)
    ensures Pack([x, y]) == [D1(x), D2(x, y), D3(y, 0)]
  {
  }

  lemma DonePackOne(x: Byte)
    ensures Whole(Pack([x])) && Done(Pack([x])) == [x]
  {
    PackOne(x);
    DoneTwo(D1(x), D2(x, 0));
    BytesBack(x, 0, 0);
    NoStrayBits(x);
  }

  lemma DonePackTwo(x: Byte, y: Byte)
    ensures Whole(Pack([x, y])) && Done(Pack([x, y])) == [x, y]
  {
    PackTwo(x, y);
    DoneThree(D1(x), D2(x, y), D3(y, 0));
    BytesBack(x, y, 0);
    NoStrayBits(y);
  }

  lemma ListOne<T>(s: seq<T>)
    requires |s| == 1
    ensures s == [s[0]]
  {
  }

  lemma ListTwo<T>(s: seq<T>)
    requires |s| == 2
    ensures s == [s[0], s[1]]
  {
  }

  lemma {:induction false} DonePack(bs: seq<Byte>)
    ensures Whole(Pack(bs)) && Done(Pack(bs)) == bs
  {
    if |bs| == 1 {
      ListOne(bs);
      DonePackOne(bs[0]);
    } else if |bs| == 2 {
      ListTwo(bs);
      DonePackTwo(bs[0], bs[1]);
    } else if |bs| >= 3 {
      var x, y, z, rest := bs[0], bs[1], bs[2], bs[3..];
      DonePack(rest);
      DoneFour(D1(x), D2(x, y), D3(y, z), D4(z), Pack(rest));
      BytesBack(x, y, z);
      assert bs == [x, y, z] + rest;
    }
  }

  lemma DoneFour(a: Digit, b: Digit, c: Digit, d: Digit, rest: seq<Digit>)
    ensures var ds := [a, b, c, d] + rest;
      Done(ds) == [B1(a, b), B2(b, c), B3(c, d)] + Done(rest) && Partial(ds) == Partial(rest) && |ds| % 4 == |rest| % 4
  {
    var ds := [a, b, c, d] + rest;
    assert ds[4..] == rest;
  }

  lemma PackThree(x: Byte, y: Byte, z: Byte, rest: seq<Byte>)
    ensures Pack([x, y, z] + rest) == [D1(x), D2(x, y), D3(y, z), D4(z)] + Pack(rest)
  {
    var bs := [x, y, z] + rest;
    assert bs[3..] == rest;
  }

  lemma PackDoneShort(ds: seq<Digit>)
    requires Whole(ds) && |ds| < 4
    ensures Pack(Done(ds)) == ds
  {
    if |ds| == 2 {
      var a, b := ds[0], ds[1];
      assert ds == [a, b];
      DoneTwo(a, b);
      DigitsBack(a, b, 0, 0);
      LastOfTwo(a, b);
      PackOne(B1(a, b));
    } else if |ds| == 3 {
      var a, b, c := ds[0], ds[1], ds[2];
      assert ds == [a, b, c];
      DoneThree(a, b, c);
      DigitsBack(a, b, c, 0);
      LastOfThree(b, c);
      PackTwo(B1(a, b), B2(b, c));
    }
  }

  lemma {:induction false} PackDone(ds: seq<Digit>)
    requires Whole(ds)
    ensures Pack(Done(ds)) == ds
  {
    if |ds| < 4 {
      PackDoneShort(ds);
    } else {
      var a, b, c, d, rest := ds[0], ds[1], ds[2], ds[3], ds[4..];
      assert Whole(rest);
      PackDone(rest);
      PackThree(B1(a, b), B2(b, c), B3(c, d), Done(rest));
      DigitsBack(a, b, c, d);
      assert ds == [a, b, c, d] + rest;
    }
  }

  /** The byte a digit completes, and the bits it leaves for the next one. */
  function Completes(g: nat, p: Byte, d: Digit): int {
    if g == 1 then p + d / 16 else if g == 2 then p + d / 4 else p + d
  }

  function Leaves(g: nat, d: Digit): Byte {
    if g == 0 then B1(d, 0) else if g == 1 then B2(d, 0) else if g == 2 then B3(d, 0) else 0
  }

  lemma Completion(e: Digit, d: Digit)
    ensures B1(e, 0) + d / 16 == B1(e, d) && B2(e, 0) + d / 4 == B2(e, d) && B3(e, 0) + d == B3(e, d)
  {
  }

  /** What one more digit does to the bytes and the bits. */
  predicate Grows(ds: seq<Digit>, d: Digit, g: nat) {
    Partial(ds + [d]) == Leaves(g, d) &&
    (g == 0 ==> Done(ds + [d]) == Done(ds)) &&
    (g > 0 ==> 0 <= Completes(g, Partial(ds), d) < 256 &&
               Done(ds + [d]) == Done(ds) + [Completes(g, Partial(ds), d) as Byte])
  }

  lemma GrowsOne(a: Digit, d: Digit)
    ensures Grows([a], d, 1)
  {
    assert [a] + [d] == [a, d];
    DoneOne(a);
    DoneTwo(a, d);
    Completion(a, d);
  }

  lemma GrowsTwo(a: Digit, b: Digit, d: Digit)
    ensures Grows([a, b], d, 2)
  {
    assert [a, b] + [d] == [a, b, d];
    DoneTwo(a, b);
    DoneThree(a, b, d);
    Completion(b, d);
  }

  lemma GrowsThree(a: Digit, b: Digit, c: Digit, d: Digit)
    ensures Grows([a, b, c], d, 3)
  {
    assert [a, b, c] + [d] == [a, b, c, d] + [];
    DoneThree(a, b, c);
    DoneFour(a, b, c, d, []);
    Completion(c, d);
  }

  lemma GrowsShort(ds: seq<Digit>, d: Digit)
    requires |ds| < 4
    ensures Grows(ds, d, |ds|)
  {
    if ds == [] {
      assert ds + [d] == [d];
      DoneOne(d);
    } else if |ds| == 1 {
      assert ds == [ds[0]];
      GrowsOne(ds[0], d);
    } else if |ds| == 2 {
      assert ds == [ds[0], ds[1]];
      GrowsTwo(ds[0], ds[1], d);
    } else {
      assert ds == [ds[0], ds[1], ds[2]];
      GrowsThree(ds[0], ds[1], ds[2], d);
    }
  }

  lemma {:induction false} DoneSnoc(ds: seq<Digit>, d: Digit)
    ensures Grows(ds, d, |ds| % 4)
  {
    if |ds| < 4 {
      GrowsShort(ds, d);
    } else {
      var a, b, c, e, rest := ds[0], ds[1], ds[2], ds[3], ds[4..];
      DoneSnoc(rest, d);
      assert ds == [a, b, c, e] + rest && ds + [d] == [a, b, c, e] + (rest + [d]);
      GrowsFour(a, b, c, e, rest, d);
    }
  }

  lemma GrowsFour(a: Digit, b: Digit, c: Digit, e: Digit, rest: seq<Digit>, d: Digit)
    requires Grows(rest, d, |rest| % 4)
    ensures Grows([a, b, c, e] + rest, d, |rest| % 4)
  {
    var g, ds, head := |rest| % 4, [a, b, c, e] + rest, [B1(a, b), B2(b, c), B3(c, e)];
    DoneFour(a, b, c, e, rest);
    DoneFour(a, b, c, e, rest + [d]);
    Assoc([a, b, c, e], rest, [d]);
    if g > 0 { Assoc(head, Done(rest), [Completes(g, Partial(rest), d) as Byte]); }
  }

  // ---------- texts ----------

  function Chars(cs: Charset, ds: seq<Digit>): (s: string)
    ensures |s| == |ds| && forall i :: 0 <= i < |ds| ==> s[i] == Char(cs, ds[i])
  {
    seq(|ds|, i requires 0 <= i < |ds| => Char(cs, ds[i]))
  }

  /** Scanning ends at the end or a NUL, at a pad character, or at a character that may not be there. */
  datatype Scanned = End(ds: seq<Digit>) | Pad(ds: seq<Digit>) | Bad

  function Prepend(ds: seq<Digit>, r: Scanned): Scanned {
    match r
    case Bad => Bad
    case End(es) => End(ds + es)
    case Pad(es) => Pad(ds + es)
  }

  function Scan(cs: Charset, s: string): Scanned {
    if s == "" || s[0] == NUL then End([])
    else if s[0] as int >= 128 then Bad
    else
      var r := Reverse(cs, s[0]);
      if r == -3 then Pad([])
      else if r == -2 then Scan(cs, s[1..])
      else if r < 0 then Bad
      else Prepend([r], Scan(cs, s[1..]))
  }

  function Finish(ds: seq<Digit>): Option<seq<Byte>> {
    if Whole(ds) then Some(Done(ds)) else None
  }

  /** What a text decodes to; a pad character needs two digits before it in its group. */
  function Decoded(cs: Charset, s: string): Option<seq<Byte>> {
    match Scan(cs, s)
    case Bad => None
    case End(ds) => Finish(ds)
    case Pad(ds) => if |ds| % 4 < 2 then None else Finish(ds)
  }

  function Encoded(cs: Charset, bs: seq<Byte>): string { Chars(cs, Pack(bs)) }

  function Padding(cs: Charset, n: nat): (s: string)
    ensures |s| == if n % 3 == 0 then 0 else 3 - n % 3
    ensures forall i :: 0 <= i < |s| ==> s[i] == PadChar(cs)
  {
    seq(if n % 3 == 0 then 0 else 3 - n % 3, _ => PadChar(cs))
  }

  function EncodedPadded(cs: Charset, bs: seq<Byte>): string { Encoded(cs, bs) + Padding(cs, |bs|) }

  /** The text up to the first pad or NUL, without the characters that are skipped. */
  function Kept(cs: Charset, s: string): string {
    if s == "" || s[0] == NUL || s[0] == PadChar(cs) then ""
    else if Reverse(cs, s[0]) == -2 then Kept(cs, s[1..])
    else [s[0]] + Kept(cs, s[1..])
  }

  lemma PrependTwice(a: seq<Digit>, b: seq<Digit>, r: Scanned)
    ensures Prepend(a, Prepend(b, r)) == Prepend(a + b, r)
  {
    if !r.Bad? { Assoc(a, b, r.ds); }
  }

  lemma {:induction false} ScanChars(cs: Charset, ds: seq<Digit>, rest: string)
    ensures Scan(cs, Chars(cs, ds) + rest) == Prepend(ds, Scan(cs, rest))
  {
    var s := Chars(cs, ds) + rest;
    if ds == [] {
      assert s == rest;
      if !Scan(cs, rest).Bad? { assert [] + Scan(cs, rest).ds == Scan(cs, rest).ds; }
    } else {
      Tables(cs, ds[0]);
      assert s[0] == Char(cs, ds[0]);
      assert s[1..] == Chars(cs, ds[1..]) + rest;
      ScanChars(cs, ds[1..], rest);
      PrependTwice([ds[0]], ds[1..], Scan(cs, rest));
      HeadOut(ds, []);
      assert ds + [] == ds && ds[1..] + [] == ds[1..];
    }
  }

  lemma ScanPadding(cs: Charset, n: nat)
    ensures Scan(cs, Padding(cs, n)) == if n % 3 == 0 then End([]) else Pad([])
  {
  }

  /** Decoding an encoding gives the bytes back, with and without padding. */
  lemma DecodeEncode(cs: Charset, bs: seq<Byte>)
    ensures Decoded(cs, Encoded(cs, bs)) == Some(bs)
    ensures Decoded(cs, EncodedPadded(cs, bs)) == Some(bs)
  {
    var ds := Pack(bs);
    DonePack(bs);
    ScanChars(cs, ds, "");
    ScanChars(cs, ds, Padding(cs, |bs|));
    ScanPadding(cs, |bs|);
    assert Chars(cs, ds) + "" == Chars(cs, ds);
    assert ds + [] == ds;
  }

  /** The digits that a scan finds are the characters it keeps. */
  lemma {:induction false} ScanKept(cs: Charset, s: string)
    requires !Scan(cs, s).Bad?
    ensures Chars(cs, Scan(cs, s).ds) == Kept(cs, s)
  {
    if s != "" && s[0] != NUL {
      var r := Reverse(cs, s[0]);
      if r == -2 {
        ScanKept(cs, s[1..]);
      } else if r >= 0 {
        ScanKept(cs, s[1..]);
        TablesBack(cs, s[0]);
        var ds := Scan(cs, s[1..]).ds;
        assert Chars(cs, [r] + ds) == [s[0]] + Chars(cs, ds);
      }
    }
  }

  /** Whatever decodes, encoding the result gives the kept characters back. */
  lemma EncodeDecode(cs: Charset, s: string)
    requires Decoded(cs, s).Some?
    ensures Encoded(cs, Decoded(cs, s).value) == Kept(cs, s)
  {
    ScanKept(cs, s);
    PackDone(Scan(cs, s).ds);
  }

  // ---------- the decoder ----------

  /** The space the decoder reserves for n characters. */
  function Reserve(n: nat): nat { 3 * (n / 4) + 3 }

  /** The output so far: whole bytes, then the bits of the next one if a group has begun. */
  ghost predicate Output(res: seq<Byte>, pos: nat, ds: seq<Digit>) {
    pos < |res| && res[..pos] == Done(ds) && (|ds| % 4 > 0 ==> res[pos] == Partial(ds))
  }

  /** Digits need no more room than is reserved. */
  lemma Room(k: nat, n: nat)
    requires k <= n
    ensures 3 * (k / 4) + (if k % 4 < 2 then 0 else k % 4 - 1) < Reserve(n)
  {
  }

  /** One digit: completes a byte, except at the start of a group, and begins the next. */
  method PutDigit(res: seq<Byte>, pos: nat, group: nat, d: Digit, ghost ds: seq<Digit>, ghost n: nat)
    returns (res': seq<Byte>, pos': nat, group': nat)
    requires Output(res, pos, ds) && group == |ds| % 4 && |res| == Reserve(n) && |ds| < n
    ensures Output(res', pos', ds + [d]) && group' == |ds + [d]| % 4 && |res'| == |res|
  {
    DoneSnoc(ds, d);
    NextGroup(ds, d, n);
    group' := (group + 1) % 4;
    if group == 0 {
      res', pos' := res[pos := Leaves(0, d)], pos;
      OutputFirst(res, pos, ds, d);
    } else {
      res', pos' := PutNext(res, pos, group, d, ds);
    }
  }

  lemma NextGroup(ds: seq<Digit>, d: Digit, n: nat)
    requires |ds| < n
    ensures |ds + [d]| % 4 == (|ds| % 4 + 1) % 4 && |Done(ds + [d])| < Reserve(n)
  {
    Room(|ds| + 1, n);
  }

  method PutNext(res: seq<Byte>, pos: nat, group: nat, d: Digit, ghost ds: seq<Digit>)
    returns (res': seq<Byte>, pos': nat)
    requires Output(res, pos, ds) && group == |ds| % 4 > 0 && Grows(ds, d, group) && |Done(ds + [d])| < |res|
    ensures Output(res', pos', ds + [d]) && |res'| == |res|
  {
    var b := Completes(group, res[pos], d);
    OutputNext(res, pos, ds, d, b);
    res', pos' := res[pos := b], pos + 1;
    assert pos' == |Done(ds + [d])|;
    if group < 3 {
      UpdateBehind(res', pos', Leaves(group, d));
      res' := res'[pos' := Leaves(group, d)];
    }
  }

  lemma OutputFirst(res: seq<Byte>, pos: nat, ds: seq<Digit>, d: Digit)
    requires Output(res, pos, ds) && |ds| % 4 == 0 && Grows(ds, d, 0)
    ensures Output(res[pos := Leaves(0, d)], pos, ds + [d])
  {
    UpdateBehind(res, pos, Leaves(0, d));
  }

  /** The completed byte goes to its place; the next place is free. */
  lemma OutputNext(res: seq<Byte>, pos: nat, ds: seq<Digit>, d: Digit, b: Byte)
    requires Output(res, pos, ds) && |ds| % 4 > 0 && Grows(ds, d, |ds| % 4) && b == Completes(|ds| % 4, Partial(ds), d)
    ensures res[pos := b][..pos + 1] == Done(ds + [d])
  {
    UpdateBehind(res, pos, b);
    Shift(res[pos := b], pos);
  }

  /** How one character continues a scan. */
  lemma ScanStep(cs: Charset, s: string, i: nat, ds: seq<Digit>, all: Scanned)
    requires i < |s| && all == Prepend(ds, Scan(cs, s[i..]))
    ensures var c, r := s[i], Reverse(cs, s[i]);
      if c == NUL then all == End(ds)
      else if c as int >= 128 then all.Bad?
      else if r == -3 then all == Pad(ds)
      else if r == -2 then all == Prepend(ds, Scan(cs, s[i + 1..]))
      else if r < 0 then all.Bad?
      else all == Prepend(ds + [r], Scan(cs, s[i + 1..]))
  {
    var t := s[i..];
    assert t[0] == s[i] && t[1..] == s[i + 1..];
    assert ds + [] == ds;
    if Reverse(cs, s[i]) >= 0 { PrependTwice(ds, [Reverse(cs, s[i])], Scan(cs, s[i + 1..])); }
  }

  lemma ScanStart(cs: Charset, s: string)
    ensures Scan(cs, s) == Prepend([], Scan(cs, s[0..]))
  {
    assert s[0..] == s;
    if !Scan(cs, s).Bad? { assert [] + Scan(cs, s).ds == Scan(cs, s).ds; }
  }

  lemma ScanEnd(cs: Charset, s: string, ds: seq<Digit>)
    ensures Prepend(ds, Scan(cs, s[|s|..])) == End(ds)
  {
    assert ds + [] == ds;
  }

  /** In the middle of a text: the digits found, and their output. */
  ghost predicate Reading(cs: Charset, input: string, i: nat, res: seq<Byte>, pos: nat, group: nat, ds: seq<Digit>) {
    i <= |input| && |ds| <= i && |res| == Reserve(|input|) && Output(res, pos, ds) && group == |ds| % 4 &&
    Scan(cs, input) == Prepend(ds, Scan(cs, input[i..]))
  }

  lemma ReadingStarts(cs: Charset, input: string)
    ensures Reading(cs, input, 0, seq(Reserve(|input|), _ => 0), 0, 0, [])
  {
    ScanStart(cs, input);
  }

  /** Runs through the text; false for a character that may not be there. */
  method ReadDigits(input: string, cs: Charset)
    returns (ok: bool, res: seq<Byte>, pos: nat, group: nat, ghost ds: seq<Digit>)
    ensures ok ==> Output(res, pos, ds) && group == |ds| % 4
    ensures ok ==> Scan(cs, input) == End(ds) || (Scan(cs, input) == Pad(ds) && |ds| % 4 >= 2)
    ensures !ok ==> Scan(cs, input).Bad? || (Scan(cs, input).Pad? && |Scan(cs, input).ds| % 4 < 2)
  {
    ok, res := true, seq(Reserve(|input|), _ => 0);
    pos, group, ds := 0, 0, [];
    ReadingStarts(cs, input);
    var i: nat := 0;
    while i < |input|
      invariant Reading(cs, input, i, res, pos, group, ds)
    {
      var c := input[i];
      ScanStep(cs, input, i, ds, Scan(cs, input));
      if c == NUL { return; }
      if c as int >= 128 { return false, res, pos, group, ds; }
      var ch := Reverse(cs, c);
      if ch == -3 { return group >= 2, res, pos, group, ds; }
      if -2 < ch < 0 { return false, res, pos, group, ds; }
      if ch >= 0 { res, pos, group, ds := ReadDigit(input, cs, i, ch, res, pos, group, ds); }
      i := i + 1;
    }
    ScanEnd(cs, input, ds);
  }

  method ReadDigit(input: string, cs: Charset, i: nat, d: Digit, res: seq<Byte>, pos: nat, group: nat,
                   ghost ds: seq<Digit>)
    returns (res': seq<Byte>, pos': nat, group': nat, ghost ds': seq<Digit>)
    requires i < |input| && Reading(cs, input, i, res, pos, group, ds)
    requires Scan(cs, input) == Prepend(ds + [d], Scan(cs, input[i + 1..]))
    ensures Reading(cs, input, i + 1, res', pos', group', ds')
  {
    res', pos', group' := PutDigit(res, pos, group, d, ds, |input|);
    ds' := ds + [d];
  }

  method Decode(input: string, cs: Charset) returns (r: Option<seq<Byte>>)
    ensures r == Decoded(cs, input)
  {
    var ok, res, pos, group, ds := ReadDigits(input, cs);
    if !ok { return None; }
    PartialAligned(ds);
    if group == 1 || (group > 1 && res[pos] != 0) { return None; }
    return Some(res[..pos]);
  }

  lemma {:induction false} PartialAligned(ds: seq<Digit>)
    ensures |ds| % 4 == 0 ==> Partial(ds) == 0
  {
    if |ds| >= 4 { PartialAligned(ds[4..]); }
  }

  // ---------- the encoder ----------

  lemma {:induction false} PackConcat(a: seq<Byte>, b: seq<Byte>)
    requires |a| % 3 == 0
    ensures Pack(a + b) == Pack(a) + Pack(b)
  {
    if a == [] {
      assert a + b == b && [] + Pack(b) == Pack(b);
    } else {
      var x, y, z, rest := a[0], a[1], a[2], a[3..];
      PackConcat(rest, b);
      assert a == [x, y, z] + rest && a + b == [x, y, z] + (rest + b);
      PackThree(x, y, z, rest);
      PackThree(x, y, z, rest + b);
      Assoc([D1(x), D2(x, y), D3(y, z), D4(z)], Pack(rest), Pack(b));
    }
  }

  lemma CharsConcat(cs: Charset, a: seq<Digit>, b: seq<Digit>)
    ensures Chars(cs, a + b) == Chars(cs, a) + Chars(cs, b)
  {
  }

  /** Six bits at a time from the low end. */
  lemma SixBits(x: Byte, y: Byte, z: Byte)
    ensures var v := x * 65536 + y * 256 + z;
      v % 64 == D4(z) && v / 64 % 64 == D3(y, z) && v / 64 / 64 % 64 == D2(x, y) && v / 64 / 64 / 64 % 64 == D1(x)
  {
    var v := x * 65536 + y * 256 + z;
    assert v / 64 == x * 1024 + y * 4 + z / 64;
    assert v / 64 / 64 == x * 16 + y / 16;
    assert v / 64 / 64 / 64 == x / 4;
  }

  /** The text so far, in a buffer that otherwise stays as it was. */
  ghost predicate Written(out: string, now: string, pos: nat, s: string) {
    pos == |s| && |now| == |out| && pos <= |out| && now[..pos] == s && now[pos..] == out[pos..]
  }

  lemma WriteOn(out: string, now: string, pos: nat, s: string, more: string, next: string)
    requires Written(out, now, pos, s) && pos + |more| <= |out|
    requires |next| == |now| && (forall j :: 0 <= j < |more| ==> next[pos + j] == more[j])
    requires forall j :: 0 <= j < |now| && !(pos <= j < pos + |more|) ==> next[j] == now[j]
    ensures Written(out, next, pos + |more|, s + more)
  {
    assert next[..pos + |more|] == now[..pos] + more;
    var e := pos + |more|;
    forall j | e <= j < |out| ensures next[j] == out[j] {
      assert now[pos..][j - pos] == out[pos..][j - pos];
    }
  }

  /** Three bytes become four characters, written from the last to the first. */
  method PutThree(now: string, pos: nat, cs: Charset, x: Byte, y: Byte, z: Byte, ghost out: string, ghost s: string)
    returns (next: string)
    requires Written(out, now, pos, s) && pos + 4 <= |out|
    ensures Written(out, next, pos + 4, s + Chars(cs, [D1(x), D2(x, y), D3(y, z), D4(z)]))
  {
    SixBits(x, y, z);
    var v := x * 65536 + y * 256 + z;
    next := now[pos + 3 := Char(cs, v % 64)];
    v := v / 64;
    next := next[pos + 2 := Char(cs, v % 64)];
    v := v / 64;
    next := next[pos + 1 := Char(cs, v % 64)];
    v := v / 64;
    next := next[pos := Char(cs, v % 64)];
    WriteOn(out, now, pos, s, Chars(cs, [D1(x), D2(x, y), D3(y, z), D4(z)]), next);
  }

  method PutOne(now: string, pos: nat, cs: Charset, x: Byte, ghost out: string, ghost s: string)
    returns (next: string)
    requires Written(out, now, pos, s) && pos + 2 <= |out|
    ensures Written(out, next, pos + 2, s + Chars(cs, Pack([x])))
  {
    var v := x * 16;
    next := now[pos + 1 := Char(cs, v % 64)];
    v := v / 64;
    next := next[pos := Char(cs, v % 64)];
    assert v % 64 == D1(x) && x * 16 % 64 == D2(x, 0);
    PackOne(x);
    WriteOn(out, now, pos, s, Chars(cs, Pack([x])), next);
  }

  method PutTwo(now: string, pos: nat, cs: Charset, x: Byte, y: Byte, ghost out: string, ghost s: string)
    returns (next: string)
    requires Written(out, now, pos, s) && pos + 3 <= |out|
    ensures Written(out, next, pos + 3, s + Chars(cs, Pack([x, y])))
  {
    var v := x * 1024 + y * 4;
    next := now[pos + 2 := Char(cs, v % 64)];
    v := v / 64;
    next := next[pos + 1 := Char(cs, v % 64)];
    v := v / 64;
    next := next[pos := Char(cs, v % 64)];
    SixBits(x, y, 0);
    assert v % 64 == D1(x);
    PackTwo(x, y);
    WriteOn(out, now, pos, s, Chars(cs, Pack([x, y])), next);
  }

  /** The digits of a prefix and of a piece behind it fit in. */
  lemma Fits(input: seq<Byte>, i: nat, k: nat)
    requires i % 3 == 0 && i + k <= |input| && 1 <= k <= 3
    ensures |Pack(input[..i])| + k + 1 <= |Pack(input)|
  {
    FitsLength(i, k, |input|);
  }

  lemma FitsLength(i: nat, k: nat, n: nat)
    requires i % 3 == 0 && i + k <= n && 1 <= k <= 3
    ensures 4 * (i / 3) + k + 1 <= 4 * (n / 3) + (if n % 3 == 0 then 0 else 1 + n % 3)
  {
  }

  method PutTuple(now: string, pos: nat, cs: Charset, input: seq<Byte>, i: nat, ghost out: string)
    returns (next: string)
    requires i % 3 == 0 && i + 3 <= |input| && |out| >= |Pack(input)|
    requires Written(out, now, pos, Encoded(cs, input[..i]))
    ensures Written(out, next, pos + 4, Encoded(cs, input[..i + 3]))
  {
    var x, y, z := input[i], input[i + 1], input[i + 2];
    Fits(input, i, 3);
    next := PutThree(now, pos, cs, x, y, z, out, Encoded(cs, input[..i]));
    EncodedMore(cs, input, i, [x, y, z]);
    PackTuple(x, y, z);
  }

  lemma PackTuple(x: Byte, y: Byte, z: Byte)
    ensures Pack([x, y, z]) == [D1(x), D2(x, y), D3(y, z), D4(z)]
  {
    PackThree(x, y, z, []);
    assert [x, y, z] + [] == [x, y, z];
    assert Pack([]) == [];
  }

  /** Full tuples first. */
  method EncodeTuples(out: string, input: seq<Byte>, cs: Charset) returns (now: string, pos: nat, i: nat)
    requires |out| >= |Pack(input)|
    ensures i == |input| - |input| % 3 && Written(out, now, pos, Encoded(cs, input[..i]))
  {
    now, pos, i := out, 0, 0;
    while i + 2 < |input|
      invariant i <= |input| && i % 3 == 0
      invariant Written(out, now, pos, Encoded(cs, input[..i]))
    {
      now := PutTuple(now, pos, cs, input, i, out);
      pos, i := pos + 4, i + 3;
    }
  }

  lemma EncodedMore(cs: Charset, input: seq<Byte>, i: nat, more: seq<Byte>)
    requires i % 3 == 0 && i + |more| <= |input| && more == input[i..i + |more|]
    ensures Encoded(cs, input[..i + |more|]) == Encoded(cs, input[..i]) + Chars(cs, Pack(more))
  {
    assert input[..i + |more|] == input[..i] + more;
    PackConcat(input[..i], more);
    CharsConcat(cs, Pack(input[..i]), Pack(more));
  }

  /** Encodes without padding into a buffer that is long enough. */
  method EncodeNoPadding(out: string, input: seq<Byte>, cs: Charset) returns (now: string, pos: nat)
    requires |out| >= |Pack(input)|
    ensures Written(out, now, pos, Encoded(cs, input))
  {
    var i;
    now, pos, i := EncodeTuples(out, input, cs);
    if |input| % 3 == 1 {
      now := PutRestOne(now, pos, cs, input, i, out);
      pos := pos + 2;
    } else if |input| % 3 == 2 {
      now := PutRestTwo(now, pos, cs, input, i, out);
      pos := pos + 3;
    } else {
      assert input[..i] == input;
    }
  }

  method PutRestOne(now: string, pos: nat, cs: Charset, input: seq<Byte>, i: nat, ghost out: string)
    returns (next: string)
    requires i % 3 == 0 && i + 1 == |input| && |out| >= |Pack(input)|
    requires Written(out, now, pos, Encoded(cs, input[..i]))
    ensures Written(out, next, pos + 2, Encoded(cs, input))
  {
    Fits(input, i, 1);
    EncodedMore(cs, input, i, [input[i]]);
    assert input[..i + 1] == input;
    next := PutOne(now, pos, cs, input[i], out, Encoded(cs, input[..i]));
  }

  method PutRestTwo(now: string, pos: nat, cs: Charset, input: seq<Byte>, i: nat, ghost out: string)
    returns (next: string)
    requires i % 3 == 0 && i + 2 == |input| && |out| >= |Pack(input)|
    requires Written(out, now, pos, Encoded(cs, input[..i]))
    ensures Written(out, next, pos + 3, Encoded(cs, input))
  {
    Fits(input, i, 2);
    EncodedMore(cs, input, i, [input[i], input[i + 1]]);
    assert input[..i + 2] == input;
    next := PutTwo(now, pos, cs, input[i], input[i + 1], out, Encoded(cs, input[..i]));
  }

  /** The space reserved for an encoding is enough, padded or not. */
  lemma EncoderReserve(input: seq<Byte>, cs: Charset)
    ensures |Pack(input)| + |Padding(cs, |input|)| <= 4 * (|input| / 3) + 4
  {
  }

  /** Encodes and pads to a multiple of four. */
  method Encode(out: string, input: seq<Byte>, cs: Charset) returns (now: string, pos: nat)
    requires |out| >= |Pack(input)| + |Padding(cs, |input|)|
    ensures Written(out, now, pos, EncodedPadded(cs, input))
  {
    now, pos := EncodeNoPadding(out, input, cs);
    now, pos := PutPadding(now, pos, cs, |input|, out, Encoded(cs, input));
  }

  method PutPadding(was: string, start: nat, cs: Charset, n: nat, ghost out: string, ghost s: string)
    returns (now: string, pos: nat)
    requires Written(out, was, start, s) && start + |Padding(cs, n)| <= |out|
    ensures Written(out, now, pos, s + Padding(cs, n))
  {
    now, pos := was, start;
    var left := if n % 3 == 0 then 0 else 3 - n % 3;
    ghost var pad := Padding(cs, n);
    assert s + pad[..0] == s;
    while left > 0
      invariant 0 <= left <= |pad| && Written(out, now, pos, s + pad[..|pad| - left])
    {
      ghost var k := |pad| - left;
      Shift(pad, k);
      var next := now[pos := PadChar(cs)];
      WriteOn(out, now, pos, s + pad[..k], [PadChar(cs)], next);
      Assoc(s, pad[..k], [PadChar(cs)]);
      now, pos, left := next, pos + 1, left - 1;
    }
    assert pad[..|pad|] == pad;
  }
}
