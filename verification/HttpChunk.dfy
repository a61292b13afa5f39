/**
 Chunked transfer coding of a response body: the framing laid over the write queue, and a
 decoder written from section 4.1.3 of RFC 7230 that reads it back.
 */
module HttpChunk {
  import opened Values
  import opened Seqs
  import opened ChunkQueue

  const CRLF: string := "\r\n"
  const LAST: string := "0\r\n\r\n"

  // ---------- hexadecimal numbers ----------

  function HexChar(d: nat): char
    requires d < 16
  {
    "0123456789abcdef"[d]
  }

  function HexDigit(c: char): (r: int)
    ensures -1 <= r < 16
  {
    if '0' <= c <= '9' then c as int - '0' as int
    else if 'a' <= c <= 'f' then c as int - 'a' as int + 10
    else if 'A' <= c <= 'F' then c as int - 'A' as int + 10
    else -1
  }

  predicate AllHex(s: string) {
    forall i :: 0 <= i < |s| ==> HexDigit(s[i]) >= 0
  }

  /** The number a string of hexadecimal digits denotes. */
  function HexValue(s: string): nat
    requires AllHex(s)
  {
    if s == "" then 0 else 16 * HexValue(s[..|s| - 1]) + HexDigit(s[|s| - 1])
  }

  /** v shifted right by k hexadecimal digits. */
  function Shr(v: nat, k: nat): nat { if k == 0 then v else Shr(v, k - 1) / 16 }

  /** The lowest k digits of v. */
  function Digits(v: nat, k: nat): (s: string)
    ensures |s| == k
  {
    if k == 0 then "" else Digits(v / 16, k - 1) + [HexChar(v % 16)]
  }

  /** Digits come in pairs, at least one pair. */
  function Nibbles(v: nat): (n: nat)
    ensures n >= 2 && n % 2 == 0
  {
    if v < 256 then 2 else 2 + Nibbles(v / 256)
  }

  function HexString(v: nat): (s: string)
    ensures s != ""
  {
    Digits(v, Nibbles(v))
  }

  lemma HexCharDigit(d: nat)
    requires d < 16
    ensures HexDigit(HexChar(d)) == d
  {
  }

  lemma {:induction false} ShrFirst(v: nat, k: nat)
    ensures Shr(v / 16, k) == Shr(v, k + 1)
  {
    if k > 0 { ShrFirst(v, k - 1); }
  }

  /** k digits are enough for v exactly when nothing is left above them. */
  lemma {:induction false} DigitsValue(v: nat, k: nat)
    requires Shr(v, k) == 0
    ensures AllHex(Digits(v, k)) && HexValue(Digits(v, k)) == v
  {
    if k > 0 {
      ShrFirst(v, k - 1);
      DigitsValue(v / 16, k - 1);
      HexCharDigit(v % 16);
      var s := Digits(v, k);
      assert s[..k - 1] == Digits(v / 16, k - 1);
    }
  }

  lemma {:induction false} NibblesEnough(v: nat)
    ensures Shr(v, Nibbles(v)) == 0
  {
    if v < 256 {
      assert Shr(v, 1) == v / 16;
    } else {
      NibblesEnough(v / 256);
      ShrFirst(v / 16, Nibbles(v / 256));
      ShrFirst(v, Nibbles(v / 256) + 1);
      assert v / 256 == v / 16 / 16;
    }
  }

  /** Reading back a chunk size gives the number that was written. */
  lemma HexRoundTrip(v: nat)
    ensures AllHex(HexString(v)) && HexValue(HexString(v)) == v
  {
    NibblesEnough(v);
    DigitsValue(v, Nibbles(v));
  }

  lemma {:induction false} NibblesShr(v: nat, j: nat)
    requires Shr(v, 2 * j) >= 256
    ensures Nibbles(v) == 2 * (j + 1) + Nibbles(Shr(v, 2 * (j + 1)))
  {
    if j == 0 {
      assert Shr(v, 1) == v / 16;
      assert Shr(v, 2) == v / 16 / 16;
    } else {
      assert Shr(v, 2 * j - 1) == Shr(v, 2 * (j - 1)) / 16;
      assert Shr(v, 2 * j) == Shr(v, 2 * (j - 1)) / 16 / 16;
      NibblesShr(v, j - 1);
      var w := Shr(v, 2 * j);
      assert Shr(v, 2 * j + 1) == w / 16;
      assert Shr(v, 2 * j + 2) == w / 16 / 16;
      assert Nibbles(w) == 2 + Nibbles(w / 256);
    }
  }

  method CountNibbles(value: nat) returns (n: nat)
    ensures n == Nibbles(value)
  {
    var copy := value / 256;
    n := 2;
    ghost var j := 0;
    while copy != 0
      invariant n == 2 * (j + 1) && copy == Shr(value, 2 * j) / 256
      invariant Nibbles(value) == 2 * j + Nibbles(Shr(value, 2 * j))
      decreases copy
    {
      NibblesShr(value, j);
      assert Shr(value, 2 * j + 1) == Shr(value, 2 * j) / 16;
      assert Shr(value, 2 * j + 2) == Shr(value, 2 * j) / 16 / 16;
      copy := copy / 256;
      n := n + 2;
      j := j + 1;
    }
  }

  /** One more digit on the right. */
  lemma NextDigit(v: nat, k: nat, n: nat)
    requires 0 < k <= n
    ensures Digits(Shr(v, k - 1), n - k + 1) == Digits(Shr(v, k), n - k) + [HexChar(Shr(v, k - 1) % 16)]
  {
  }

  /** Counts the digits, then writes them from the highest down. */
  method AppendUintHex(b: string, value: nat) returns (r: string)
    ensures r == b + HexString(value)
  {
    var n := CountNibbles(value);
    r := b;
    var k := n;
    while k > 0
      invariant k <= n
      invariant r == b + Digits(Shr(value, k), n - k)
    {
      NextDigit(value, k, n);
      k := k - 1;
      r := r + [HexChar(Shr(value, k) % 16)];
    }
  }

  // ---------- the decoder ----------

  datatype Decoded = Decoded(body: string, rest: string)

  /** Splits at the first CRLF. */
  function ReadLine(s: string): (r: Option<(string, string)>)
    ensures r.Some? ==> s == r.value.0 + CRLF + r.value.1
  {
    if |s| < 2 then None
    else if s[0] == '\r' && s[1] == '\n' then Some(("", s[2..]))
    else match ReadLine(s[1..])
      case None => None
      case Some(p) => Some(([s[0]] + p.0, p.1))
  }

  /** How many digits a size line starts with. */
  function DigitRun(line: string): (n: nat)
    ensures n <= |line| && AllHex(line[..n]) && (n < |line| ==> HexDigit(line[n]) < 0)
  {
    if line == "" || HexDigit(line[0]) < 0 then 0
    else
      var n := 1 + DigitRun(line[1..]);
      assert forall i :: 1 <= i < n ==> line[i] == line[1..][i - 1];
      n
  }

  /** chunk-size, which may be followed by extensions. */
  function ChunkSize(line: string): Option<nat> {
    var n := DigitRun(line);
    if n == 0 || (n < |line| && line[n] != ';') then None else Some(HexValue(line[..n]))
  }

  /** Reads trailer fields up to the empty line. */
  function SkipTrailer(s: string): Option<string>
    decreases |s|
  {
    match ReadLine(s)
    case None => None
    case Some(p) => if p.0 == "" then Some(p.1) else SkipTrailer(p.1)
  }

  function Decode(s: string): Option<Decoded>
    decreases |s|
  {
    match ReadLine(s)
    case None => None
    case Some(p) =>
      match ChunkSize(p.0)
      case None => None
      case Some(size) =>
        if size == 0 then
          match SkipTrailer(p.1)
          case None => None
          case Some(rest) => Some(Decoded("", rest))
        else if |p.1| < size + 2 || p.1[size..size + 2] != CRLF then None
        else
          match Decode(p.1[size + 2..])
          case None => None
          case Some(d) => Some(Decoded(p.1[..size] + d.body, d.rest))
  }

  // ---------- frames ----------

  function Frame(data: string): string { HexString(|data|) + CRLF + data + CRLF }

  function Frames(pieces: seq<string>): string {
    if pieces == [] then "" else Frames(pieces[..|pieces| - 1]) + Frame(pieces[|pieces| - 1])
  }

  lemma {:induction false} ReadHexLine(h: string, rest: string)
    requires AllHex(h)
    ensures ReadLine(h + CRLF + rest) == Some((h, rest))
  {
    var s := h + CRLF + rest;
    if h == "" {
      assert s[2..] == rest;
    } else {
      assert HexDigit(h[0]) >= 0;
      ReadHexLine(h[1..], rest);
      assert s[1..] == h[1..] + CRLF + rest;
      assert [h[0]] + h[1..] == h;
    }
  }

  lemma {:induction false} HexRun(h: string)
    requires AllHex(h)
    ensures DigitRun(h) == |h|
  {
    if h != "" {
      assert HexDigit(h[0]) >= 0;
      HexRun(h[1..]);
    }
  }

  lemma ReadSize(n: nat, rest: string)
    ensures ReadLine(HexString(n) + CRLF + rest) == Some((HexString(n), rest))
    ensures ChunkSize(HexString(n)) == Some(n)
  {
    HexRoundTrip(n);
    ReadHexLine(HexString(n), rest);
    HexRun(HexString(n));
    assert HexString(n)[..|HexString(n)|] == HexString(n);
  }

  lemma FrameThen(data: string, rest: string)
    ensures Frame(data) + rest == HexString(|data|) + CRLF + (data + CRLF + rest)
  {
  }

  /** The decoder takes one non-empty frame off the front. */
  lemma DecodeFrame(data: string, rest: string)
    requires data != ""
    ensures Decode(Frame(data) + rest) ==
      match Decode(rest) case None => None case Some(d) => Some(Decoded(data + d.body, d.rest))
  {
    var after := data + CRLF + rest;
    FrameThen(data, rest);
    ReadSize(|data|, after);
    assert after[..|data|] == data && after[|data|..|data| + 2] == CRLF && after[|data| + 2..] == rest;
  }

  lemma SkipNothing(rest: string)
    ensures SkipTrailer(CRLF + rest) == Some(rest)
  {
    assert (CRLF + rest)[2..] == rest;
  }

  /** An empty frame is a last chunk: the decoder stops behind it. */
  lemma DecodeEmptyFrame(rest: string)
    ensures Decode(Frame("") + rest) == Some(Decoded("", rest))
  {
    FrameThen("", rest);
    assert "" + CRLF + rest == CRLF + rest;
    ReadSize(0, CRLF + rest);
    SkipNothing(rest);
  }

  lemma DecodeLast(rest: string)
    ensures Decode(LAST + rest) == Some(Decoded("", rest))
  {
    assert LAST + rest == "0" + CRLF + (CRLF + rest);
    ReadHexLine("0", CRLF + rest);
    HexRun("0");
    assert "0"[..1] == "0" && "0"[..0] == "";
    assert HexValue("0") == 0;
    SkipNothing(rest);
  }

  predicate NoneEmpty(pieces: seq<string>) {
    forall i :: 0 <= i < |pieces| ==> pieces[i] != ""
  }

  lemma {:induction false} DecodeFrames(pieces: seq<string>, rest: string)
    requires NoneEmpty(pieces)
    ensures Decode(Frames(pieces) + rest) ==
      match Decode(rest) case None => None case Some(d) => Some(Decoded(Flatten(pieces) + d.body, d.rest))
  {
    if pieces == [] {
      assert "" + rest == rest;
      if Decode(rest).Some? { assert "" + Decode(rest).value.body == Decode(rest).value.body; }
    } else {
      var front, last := pieces[..|pieces| - 1], pieces[|pieces| - 1];
      DecodeFrames(front, Frame(last) + rest);
      DecodeFrame(last, rest);
      Assoc(Frames(front), Frame(last), rest);
      if Decode(rest).Some? { Assoc(Flatten(front), last, Decode(rest).value.body); }
    }
  }

  lemma FramesSnoc(pieces: seq<string>, p: string)
    ensures Frames(pieces + [p]) == Frames(pieces) + Frame(p)
    ensures Flatten(pieces + [p]) == Flatten(pieces) + p
  {
    assert (pieces + [p])[..|pieces|] == pieces;
  }

  lemma {:induction false} FramesConcat(a: seq<string>, b: seq<string>)
    ensures Frames(a + b) == Frames(a) + Frames(b)
  {
    if b == [] {
      assert a + b == a;
    } else {
      var front, last := b[..|b| - 1], b[|b| - 1];
      FramesConcat(a, front);
      FramesSnoc(a + front, last);
      assert a + b == a + front + [last];
      Assoc(Frames(a), Frames(front), Frame(last));
    }
  }

  /**
   A closed stream decodes to exactly what was appended, and the decoder stops exactly at its
   end, if and only if no appended piece was empty.
   */
  lemma ClosedStream(pieces: seq<string>, tail: string)
    ensures Decode(Frames(pieces) + (LAST + tail)) == Some(Decoded(Flatten(pieces), tail)) <==> NoneEmpty(pieces)
  {
    if NoneEmpty(pieces) {
      DecodeFrames(pieces, LAST + tail);
      DecodeLast(tail);
      assert Flatten(pieces) + "" == Flatten(pieces);
    } else {
      var i := FirstEmpty(pieces);
      var a, b := pieces[..i], pieces[i + 1..];
      StopsEarly(a, b, LAST + tail);
      MiddleOut(pieces, i);
      LeftOver(Frames(b), tail);
    }
  }

  lemma MiddleOut(pieces: seq<string>, i: nat)
    requires i < |pieces|
    ensures pieces == pieces[..i] + [pieces[i]] + pieces[i + 1..]
  {
  }

  lemma LeftOver(more: string, tail: string)
    ensures more + (LAST + tail) != tail
  {
    assert |more + (LAST + tail)| == |more| + 5 + |tail|;
  }

  lemma FirstEmpty(pieces: seq<string>) returns (i: nat)
    requires !NoneEmpty(pieces)
    ensures i < |pieces| && pieces[i] == "" && NoneEmpty(pieces[..i])
  {
    i := 0;
    while pieces[i] != ""
      invariant i < |pieces| && NoneEmpty(pieces[..i]) && !NoneEmpty(pieces[i..])
      decreases |pieces| - i
    {
      i := i + 1;
    }
  }

  /** Whatever follows an empty piece is left unread. */
  lemma StopsEarly(a: seq<string>, b: seq<string>, rest: string)
    requires NoneEmpty(a)
    ensures Decode(Frames(a + [""] + b) + rest) == Some(Decoded(Flatten(a), Frames(b) + rest))
  {
    FramesConcat(a + [""], b);
    FramesConcat(a, [""]);
    assert [""][..0] == [] && Frames([""]) == "" + Frame("");
    DecodeFrames(a, Frame("") + (Frames(b) + rest));
    DecodeEmptyFrame(Frames(b) + rest);
    assert Flatten(a) + "" == Flatten(a);
    Assoc(Frames(a) + Frame(""), Frames(b), rest);
    Assoc(Frames(a), Frame(""), Frames(b) + rest);
  }

  // ---------- appending to the write queue ----------

  /** A piece of body as it goes on the wire. */
  function OnWire(chunked: bool, data: string): string { if chunked then Frame(data) else data }

  /** The body so far. */
  function Body(chunked: bool, pieces: seq<string>): string { if chunked then Frames(pieces) else Flatten(pieces) }

  lemma BodyGrows(chunked: bool, pieces: seq<string>, p: string)
    ensures Body(chunked, pieces + [p]) == Body(chunked, pieces) + OnWire(chunked, p)
  {
    FramesSnoc(pieces, p);
  }

  lemma FrameParts(q: string, data: string)
    ensures q + (HexString(|data|) + CRLF) + data + CRLF == q + Frame(data)
  {
    var h := HexString(|data|) + CRLF;
    Assoc(q, h, data);
    Assoc(q, h + data, CRLF);
  }

  method SizeLine(n: nat) returns (line: string)
    ensures line == HexString(n) + CRLF
  {
    line := AppendUintHex("", n);
    assert "" + HexString(n) == HexString(n);
    line := line + CRLF;
  }

  method AppendLen(q: Queue<char>, n: nat)
    requires q.Valid()
    modifies q, q.Nodes()
    ensures forall n :: n in q.Nodes() ==> n in old(q.Nodes()) || fresh(n)
    ensures q.Valid() && q.Bytes() == old(q.Bytes()) + (HexString(n) + CRLF)
    ensures q.chunks == old(q.chunks) + InMemory(HexString(n) + CRLF)
  {
    var line := SizeLine(n);
    q.AppendMem(line);
  }

  // ---------- where a piece is kept ----------

  /** A memory chunk for these bytes, and none for none. */
  function InMemory(s: string): seq<Part<char>> { if s == "" then [] else [Part(Mem(s), 0)] }

  /** A chunk for a range of a file that someone else keeps, and none for an empty range. */
  function InFile(file: string, offset: nat, len: nat): seq<Part<char>> {
    if len == 0 then [] else [Part(File(file, offset, len, false, false), 0)]
  }

  /** Between its size line and its line end, which are kept in memory. */
  function Wrapped(chunked: bool, len: nat, ps: seq<Part<char>>): seq<Part<char>> {
    if chunked then InMemory(HexString(len) + CRLF) + ps + InMemory(CRLF) else ps
  }

  lemma WrappedParts(qs: seq<Part<char>>, len: nat, ps: seq<Part<char>>)
    ensures qs + InMemory(HexString(len) + CRLF) + ps + InMemory(CRLF) == qs + Wrapped(true, len, ps)
    ensures qs + ps == qs + Wrapped(false, len, ps)
  {
    var h := InMemory(HexString(len) + CRLF);
    Assoc(qs, h, ps);
    Assoc(qs, h + ps, InMemory(CRLF));
  }

  /** With the piece written to temporary files, size line and line end included. */
  function FrameStored(ps: seq<Part<char>>, chunked: bool, data: string, limit: nat, writes: seq<nat>)
    : seq<Part<char>> {
    if !chunked then Stored(ps, data, limit, writes)
    else
      var line := HexString(|data|) + CRLF;
      var later := WritesLeft(|line|, writes);
      Stored(Stored(Stored(ps, line, limit, writes), data, limit, later), CRLF, limit, WritesLeft(|data|, later))
  }

  /** Memory is not kept as such behind a temporary file, nor when it would make more than the bound. */
  predicate Spills(ps: seq<Part<char>>, total: nat, bound: nat) {
    (ps != [] && ps[|ps| - 1].data.File? && ps[|ps| - 1].data.isTemp) || total > bound
  }

  /** The chunks behind which a piece of memory has been put, when there were `queued` bytes. */
  function Held(ps: seq<Part<char>>, queued: nat, chunked: bool, data: string, bufmin: bool, limit: nat,
                writes: seq<nat>): seq<Part<char>> {
    if data == "" then ps
    else if Spills(ps, queued + |data|, if bufmin then 0x2_0000 else 0x1_0000) then
      FrameStored(ps, chunked, data, limit, writes)
    else ps + Wrapped(chunked, |data|, InMemory(data))
  }

  /** All of it lands in temporary files. */
  lemma FrameInFiles(ps: seq<Part<char>>, chunked: bool, data: string, limit: nat, writes: seq<nat>)
    ensures var qs := FrameStored(ps, chunked, data, limit, writes); Appendable(qs) && OnlyTempsAdded(ps, qs)
  {
    if !chunked {
      StoredInFiles(ps, data, limit, writes);
    } else {
      var line := HexString(|data|) + CRLF;
      var later := WritesLeft(|line|, writes);
      var qs := Stored(ps, line, limit, writes);
      var rs := Stored(qs, data, limit, later);
      StoredInFiles(ps, line, limit, writes);
      StoredInFiles(qs, data, limit, later);
      StoredInFiles(rs, CRLF, limit, WritesLeft(|data|, later));
      OnlyFilesOn(ps, qs, rs);
      OnlyFilesOn(ps, rs, Stored(rs, CRLF, limit, WritesLeft(|data|, later)));
    }
  }

  /** So a piece lands in temporary files, as soon as these are to be used, and in memory until then. */
  lemma HeldWhere(ps: seq<Part<char>>, queued: nat, chunked: bool, data: string, bufmin: bool, limit: nat,
                  writes: seq<nat>)
    requires data != ""
    ensures var qs := Held(ps, queued, chunked, data, bufmin, limit, writes);
      if Spills(ps, queued + |data|, if bufmin then 0x2_0000 else 0x1_0000)
      then Appendable(qs) && OnlyTempsAdded(ps, qs)
      else ps <= qs && AllMem(qs[|ps|..]) && qs[|ps|..] != []
  {
    if Spills(ps, queued + |data|, if bufmin then 0x2_0000 else 0x1_0000) {
      FrameInFiles(ps, chunked, data, limit, writes);
    } else {
      WrappedInMemory(ps, chunked, data);
    }
  }

  lemma WrappedInMemory(ps: seq<Part<char>>, chunked: bool, data: string)
    requires data != ""
    ensures var more := Wrapped(chunked, |data|, InMemory(data));
      AllMem(more) && more != [] && (ps + more)[|ps|..] == more
  {
  }

  method FrameMem(q: Queue<char>, chunked: bool, data: string)
    requires q.Valid()
    modifies q, q.Nodes()
    ensures forall n :: n in q.Nodes() ==> n in old(q.Nodes()) || fresh(n)
    ensures q.Valid() && q.Bytes() == old(q.Bytes()) + OnWire(chunked, data)
    ensures q.chunks == old(q.chunks) + Wrapped(chunked, |data|, InMemory(data))
  {
    FrameParts(q.Bytes(), data);
    WrappedParts(q.chunks, |data|, InMemory(data));
    if chunked { AppendLen(q, |data|); }
    q.AppendMem(data);
    if chunked { q.AppendMem(CRLF); }
  }

  method FrameTempfile(q: Queue<char>, chunked: bool, data: string, limit: nat, writes: seq<nat>)
    requires q.Valid()
    modifies q, q.Nodes()
    ensures forall n :: n in q.Nodes() ==> n in old(q.Nodes()) || fresh(n)
    ensures q.Valid() && q.Bytes() == old(q.Bytes()) + OnWire(chunked, data)
    ensures q.chunks == FrameStored(old(q.chunks), chunked, data, limit, writes)
    ensures Appendable(q.chunks) && OnlyTempsAdded(old(q.chunks), q.chunks)
  {
    FrameInFiles(q.chunks, chunked, data, limit, writes);
    StoreFrame(q, chunked, data, limit, writes);
  }

  method StoreFrame(q: Queue<char>, chunked: bool, data: string, limit: nat, writes: seq<nat>)
    requires q.Valid()
    modifies q, q.Nodes()
    ensures forall n :: n in q.Nodes() ==> n in old(q.Nodes()) || fresh(n)
    ensures q.Valid() && q.Bytes() == old(q.Bytes()) + OnWire(chunked, data)
    ensures q.chunks == FrameStored(old(q.chunks), chunked, data, limit, writes)
  {
    FrameParts(q.Bytes(), data);
    var later := writes;
    if chunked { later := StoreLen(q, |data|, limit, later); }
    later := Store(q, data, limit, later);
    if chunked { later := Store(q, CRLF, limit, later); }
  }

  method StoreLen(q: Queue<char>, n: nat, limit: nat, writes: seq<nat>) returns (later: seq<nat>)
    requires q.Valid()
    modifies q, q.Nodes()
    ensures forall n :: n in q.Nodes() ==> n in old(q.Nodes()) || fresh(n)
    ensures q.Valid() && q.Bytes() == old(q.Bytes()) + (HexString(n) + CRLF)
    ensures q.chunks == Stored(old(q.chunks), HexString(n) + CRLF, limit, writes)
    ensures later == WritesLeft(|HexString(n) + CRLF|, writes)
  {
    var line := SizeLine(n);
    later := Store(q, line, limit, writes);
  }

  method Store(q: Queue<char>, mem: string, limit: nat, writes: seq<nat>) returns (later: seq<nat>)
    requires q.Valid()
    modifies q, q.Nodes()
    ensures forall n :: n in q.Nodes() ==> n in old(q.Nodes()) || fresh(n)
    ensures q.Valid() && q.Bytes() == old(q.Bytes()) + mem
    ensures q.chunks == Stored(old(q.chunks), mem, limit, writes) && later == WritesLeft(|mem|, writes)
  {
    later := q.AppendMemToTempfile(mem, limit, writes);
  }

  /** Memory goes on the queue, or to temporary files when the tail is one or when too much would be queued. */
  method FrameData(q: Queue<char>, chunked: bool, data: string, bufmin: bool, limit: nat, writes: seq<nat>)
    requires q.Valid() && data != ""
    modifies q, q.Nodes()
    ensures forall n :: n in q.Nodes() ==> n in old(q.Nodes()) || fresh(n)
    ensures q.Valid() && q.Bytes() == old(q.Bytes()) + OnWire(chunked, data)
    ensures q.chunks == Held(old(q.chunks), |old(q.Bytes())|, chunked, data, bufmin, limit, writes)
  {
    if (q.last != null && q.last.data.data.File? && q.last.data.data.isTemp) ||
      q.bytesIn - q.bytesOut + |data| > 1024 * (if bufmin then 128 else 64) {
      FrameTempfile(q, chunked, data, limit, writes);
    } else {
      FrameMem(q, chunked, data);
    }
  }

  method FrameFile(q: Queue<char>, chunked: bool, file: string, offset: nat, len: nat)
    requires q.Valid() && offset + len <= |file|
    modifies q, q.Nodes()
    ensures forall n :: n in q.Nodes() ==> n in old(q.Nodes()) || fresh(n)
    ensures q.Valid() && q.Bytes() == old(q.Bytes()) + OnWire(chunked, Range(file, offset, len))
    ensures q.chunks == old(q.chunks) + Wrapped(chunked, len, InFile(file, offset, len))
  {
    ghost var data := Range(file, offset, len);
    FrameParts(q.Bytes(), data);
    WrappedParts(q.chunks, len, InFile(file, offset, len));
    if chunked { AppendLen(q, len); }
    q.AppendFile(file, offset, len);
    if chunked { q.AppendMem(CRLF); }
  }

  /** What was sent and what is queued make up the header, the body and, if it was appended, the last chunk. */
  ghost predicate Follows(header: string, body: string, ended: bool, sent: string, queued: string) {
    match ended
    case true => Starts(header + body + LAST, sent, queued)
    case false => Starts(header + body + "", sent, queued)
  }

  lemma FollowsOn(header: string, body: string, ended: bool, sent: string, queued: string, n: nat)
    requires Follows(header, body, ended, sent, queued) && n <= |queued|
    ensures Follows(header, body, ended, sent + queued[..n], queued[n..])
  {
    assert queued == queued[..n] + queued[n..];
    StartsOn(header + body + if ended then LAST else "", sent, queued, queued[..n], queued[n..]);
  }

  datatype State = HandleRequest | ReadPost | Write | Other

  /** A response: its write queue and how its body is framed. */
  class Response {
    const q: Queue<char>
    var chunked: bool
    var finished: bool
    var started: bool
    var keepAlive: bool
    var state: State
    var status: int

    ghost var sent: string          // taken off the queue by the network
    ghost var header: string        // put in front of the body
    ghost var pieces: seq<string>   // the appended pieces of body
    ghost var closed: bool          // the last chunk has been appended

    ghost predicate Valid()
      reads this, q, q.live.own, q.spare.own
    {
      q.Valid() && Follows(header, Body(chunked, pieces), closed && chunked, sent, q.Bytes())
    }

    /** Everything the client sees, sent or queued. */
    ghost function Wire(): string
      reads this
    {
      header + Body(chunked, pieces) + (if closed && chunked then LAST else "")
    }

    constructor ()
      ensures Valid() && fresh(q) && !chunked && !finished && !closed && pieces == []
    {
      q := new Queue();
      chunked, finished, started, keepAlive, state, status := false, false, false, true, HandleRequest, 0;
      sent, header, pieces, closed := "", "", [], false;
    }

    /** The bytes appended so far. */
    ghost function Payload(): string
      reads this
    {
      Flatten(pieces)
    }

    /** Records a piece that has just been put on the queue. */
    ghost method Grow(before: string, data: string)
      requires !closed && q.Valid() && Starts(Wire(), sent, before)
      requires q.Bytes() == before + OnWire(chunked, data)
      modifies this`pieces
      ensures Valid() && pieces == old(pieces) + [data] && Payload() == old(Payload()) + data
    {
      BodyGrows(chunked, pieces, data);
      FramesSnoc(pieces, data);
      WireGrows(header, Body(chunked, pieces), OnWire(chunked, data), sent, before);
      pieces := pieces + [data];
    }

    /** A piece of memory; an empty one appends nothing. */
    method AppendData(data: string, bufmin: bool, limit: nat, writes: seq<nat>)
      requires Valid() && !closed
      modifies q, q.Nodes(), this`pieces
      ensures forall n :: n in q.Nodes() ==> n in old(q.Nodes()) || fresh(n)
      ensures Valid() && pieces == if data == "" then old(pieces) else old(pieces) + [data]
      ensures Payload() == old(Payload()) + data
      ensures q.chunks == Held(old(q.chunks), |old(q.Bytes())|, chunked, data, bufmin, limit, writes)
    {
      if |data| == 0 { return; }
      ghost var before := q.Bytes();
      FrameData(q, chunked, data, bufmin, limit, writes);
      Grow(before, data);
    }

    /** A range of a file; length -1 stands for all that follows the offset. */
    method AppendFileRange(file: string, offset: nat, length: int) returns (ok: bool)
      requires Valid() && !closed && length >= -1
      modifies q, q.Nodes(), this`pieces
      ensures forall n :: n in q.Nodes() ==> n in old(q.Nodes()) || fresh(n)
      ensures Valid()
      ensures ok == if length == -1 then offset <= |file| else offset + length <= |file|
      ensures !ok || (length == -1 && offset == |file|) ==> pieces == old(pieces) && q.chunks == old(q.chunks)
      ensures ok && !(length == -1 && offset == |file|) ==>
        var len := if length == -1 then |file| - offset else length;
        pieces == old(pieces) + [Range(file, offset, len)] &&
        q.chunks == old(q.chunks) + Wrapped(chunked, len, InFile(file, offset, len))
    {
      var len := length;
      if len == -1 {
        if offset >= |file| { return offset == |file|; }
        len := |file| - offset;
      } else if |file| - offset < len {
        return false;
      }
      AppendRange(file, offset, len);
      return true;
    }

    method AppendRange(file: string, offset: nat, len: nat)
      requires Valid() && !closed && offset + len <= |file|
      modifies q, q.Nodes(), this`pieces
      ensures forall n :: n in q.Nodes() ==> n in old(q.Nodes()) || fresh(n)
      ensures Valid() && pieces == old(pieces) + [Range(file, offset, len)]
      ensures q.chunks == old(q.chunks) + Wrapped(chunked, len, InFile(file, offset, len))
    {
      ghost var before := q.Bytes();
      FrameFile(q, chunked, file, offset, len);
      Grow(before, Range(file, offset, len));
    }

    /** A whole file; an empty one appends nothing. */
    method AppendFile(file: string)
      requires Valid() && !closed
      modifies q, q.Nodes(), this`pieces
      ensures forall n :: n in q.Nodes() ==> n in old(q.Nodes()) || fresh(n)
      ensures Valid() && pieces == if file == "" then old(pieces) else old(pieces) + [file]
      ensures q.chunks == if file == "" then old(q.chunks) else
        old(q.chunks) + Wrapped(chunked, |file|, InFile(file, 0, |file|))
    {
      if |file| == 0 { return; }
      assert Range(file, 0, |file|) == file;
      AppendRange(file, 0, |file|);
    }

    /** The network takes n bytes. */
    method Sent(n: nat)
      requires Valid() && n <= |q.Bytes()|
      modifies q, q.Nodes(), this`sent
      ensures forall n :: n in q.Nodes() ==> n in old(q.Nodes()) || fresh(n)
      ensures Valid() && sent == old(sent) + old(q.Bytes())[..n]
    {
      ghost var b := q.Bytes();
      FollowsOn(header, Body(chunked, pieces), closed && chunked, sent, b, n);
      TakeOff(q, n);
      sent := sent + b[..n];
    }

    /**
     Headers are complete and the body is not: picks the framing, and turns what is already
     queued into the first chunk.
     */
    method Prepare(delimited: bool, http11: bool, head: bool)
      requires Valid() && !finished && !closed && sent == "" && header == "" && !chunked
      modifies q, q.Nodes(), this`chunked, this`keepAlive, this`pieces, this`finished
      ensures forall n :: n in q.Nodes() ==> n in old(q.Nodes()) || fresh(n)
      ensures Valid() && !closed && chunked == (!delimited && http11 && !head) && finished == head
      ensures !head ==> Payload() == old(Payload()) && (chunked ==> NoneEmpty(pieces))
      ensures head ==> pieces == [] && q.Bytes() == ""
      ensures keepAlive == (old(keepAlive) && (delimited || http11))
    {
      if !delimited {
        if http11 {
          StartChunked();
        } else {
          keepAlive := false;
        }
      }
      if head { DropBody(); }
    }

    /** The answer to HEAD is the header alone. */
    method DropBody()
      requires Valid() && !closed && sent == "" && header == ""
      modifies q, q.Nodes(), this`chunked, this`pieces, this`finished
      ensures forall n :: n in q.Nodes() ==> n in old(q.Nodes()) || fresh(n)
      ensures Valid() && !chunked && finished && pieces == [] && q.Bytes() == ""
    {
      finished := true;
      q.Reset();
      chunked := false;
      pieces := [];
      ChunkedWire("");
    }

    method StartChunked()
      requires Valid() && !closed && sent == "" && header == "" && !chunked
      modifies q, q.Nodes(), this`chunked, this`pieces
      ensures forall n :: n in q.Nodes() ==> n in old(q.Nodes()) || fresh(n)
      ensures Valid() && chunked && Payload() == old(Payload()) && NoneEmpty(pieces)
    {
      ghost var all := q.Bytes();
      PlainWire(all, pieces);
      chunked := true;
      pieces := OnePiece(all);
      FrameAll(q);
      FramedWire(all);
      assert Wire() == "" + Body(true, OnePiece(all)) + "";
    }

    /** A closed stream is read back exactly, iff no piece of it was empty. */
    lemma Recovered(tail: string)
      requires Valid() && closed && chunked
      ensures var body := Wire()[|header|..];
        Decode(body + tail) == Some(Decoded(Payload(), tail)) <==> NoneEmpty(pieces)
    {
      ClosedStream(pieces, tail);
      assert Wire()[|header|..] == Frames(pieces) + LAST;
      Assoc(Frames(pieces), LAST, tail);
    }

    /** The response header goes in front of everything queued. */
    method WriteHeader(h: string)
      requires Valid() && sent == "" && header == ""
      modifies q, q.Nodes(), this`header
      ensures forall n :: n in q.Nodes() ==> n in old(q.Nodes()) || fresh(n)
      ensures Valid() && header == h && pieces == old(pieces)
    {
      ghost var rest := Wire();
      assert "" + q.Bytes() == q.Bytes();
      q.PrependBuffer(h);
      HeaderFront(h, Body(chunked, pieces), if closed && chunked then LAST else "");
      header := h;
      assert "" + q.Bytes() == q.Bytes();
    }

    method Close()
      requires Valid() && !closed
      modifies q, q.Nodes(), this`closed
      ensures forall n :: n in q.Nodes() ==> n in old(q.Nodes()) || fresh(n)
      ensures Valid() && closed
    {
      if chunked {
        ghost var before := q.Bytes();
        q.AppendMem(LAST);
        CloseGrows(header, Body(chunked, pieces), sent, before);
      }
      closed := true;
    }

    /** The backend has no more to send; closes the stream at most once. */
    method BackendDone()
      requires Valid() && (closed ==> finished)
      modifies q, q.Nodes(), this`closed, this`finished, this`status
      ensures forall n :: n in q.Nodes() ==> n in old(q.Nodes()) || fresh(n)
      ensures Valid() && (closed ==> finished)
      ensures finished == (old(finished) || state.Write? || (started && !state.Other?))
      ensures closed == (old(closed) || (finished && !old(finished)))
      ensures status == if !started && (state.HandleRequest? || state.ReadPost?) then 500 else old(status)
    {
      if state.HandleRequest? || state.ReadPost? {
        if !started {
          status := 500;
          return;
        }
      } else if state.Other? {
        return;
      }
      if !finished {
        Close();
        finished := true;
      }
    }
  }

  lemma WireGrows(header: string, body: string, more: string, sent: string, queued: string)
    requires Starts(header + body + "", sent, queued)
    ensures Starts(header + (body + more) + "", sent, queued + more)
  {
    assert header + body + "" == header + body;
    assert header + (body + more) + "" == header + (body + more);
    Assoc(header, body, more);
    Assoc(sent, queued, more);
  }

  lemma CloseGrows(header: string, body: string, sent: string, queued: string)
    requires Starts(header + body + "", sent, queued)
    ensures Starts(header + body + LAST, sent, queued + LAST)
  {
    assert header + body + "" == header + body;
    Assoc(sent, queued, LAST);
  }

  lemma HeaderFront(h: string, body: string, end: string)
    ensures h + ("" + body + end) == h + body + end
  {
    assert "" + body == body;
    Assoc(h, body, end);
  }

  /** The first n bytes of a queue have been written. */
  method TakeOff(q: Queue<char>, n: nat)
    requires q.Valid() && n <= |q.Bytes()|
    modifies q, q.Nodes()
    ensures forall n :: n in q.Nodes() ==> n in old(q.Nodes()) || fresh(n)
    ensures q.Valid() && q.Bytes() == old(q.Bytes())[n..]
  {
    q.MarkWritten(n);
  }

  /** What is queued becomes one frame: its size goes in front and a line end behind. */
  method FrameQueued(q: Queue<char>, n: nat)
    requires q.Valid() && n == |q.Bytes()|
    modifies q, q.Nodes()
    ensures forall n :: n in q.Nodes() ==> n in old(q.Nodes()) || fresh(n)
    ensures q.Valid() && q.Bytes() == Frame(old(q.Bytes())) && q.chunks == Wrapped(true, n, old(q.chunks))
  {
    var line := SizeLine(n);
    q.PrependBuffer(line);
    q.AppendMem(CRLF);
  }

  /** Everything queued as one piece, or none if there is nothing. */
  ghost function OnePiece(all: string): seq<string> { if all == "" then [] else [all] }

  /** What is queued, if anything, becomes the first frame. */
  method FrameAll(q: Queue<char>)
    requires q.Valid()
    modifies q, q.Nodes()
    ensures forall n :: n in q.Nodes() ==> n in old(q.Nodes()) || fresh(n)
    ensures q.Valid() && q.Bytes() == if old(q.Bytes()) == "" then "" else Frame(old(q.Bytes()))
    ensures q.chunks == Wrapped(old(q.Bytes()) != "", |old(q.Bytes())|, old(q.chunks))
  {
    var qlen := q.Length();
    if qlen != 0 { FrameQueued(q, qlen); }
  }

  lemma FramedWire(all: string)
    ensures var ps := OnePiece(all);
      NoneEmpty(ps) && Flatten(ps) == all && Starts("" + Body(true, ps) + "", "", if all == "" then "" else Frame(all))
  {
    FirstPiece(all);
    ChunkedWire(if all == "" then "" else Frame(all));
  }

  lemma PlainWire(all: string, pieces: seq<string>)
    requires Starts("" + Body(false, pieces) + "", "", all)
    ensures all == Flatten(pieces)
  {
    assert "" + Flatten(pieces) + "" == Flatten(pieces);
    assert "" + all == all;
  }

  lemma ChunkedWire(all: string)
    ensures Starts("" + all + "", "", all)
  {
  }

  lemma FirstPiece(all: string)
    ensures Frames([all]) == Frame(all) && Flatten([all]) == all
  {
    FramesSnoc([], all);
    assert [] + [all] == [all];
    assert "" + Frame(all) == Frame(all) && "" + all == all;
  }
}
