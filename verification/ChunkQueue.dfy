/**
 Queues of byte chunks: linked lists of memory buffers and file ranges with read offsets, a
 list of recycled chunks, and running byte counters.
 */
module ChunkQueue {
  import opened Seqs
  import opened Chains
  import opened ChunkList

  /** What a chunk holds: a memory buffer, or a range of a file with the given contents. */
  datatype Payload<T> =
    | Mem(mem: seq<T>)
    | File(file: seq<T>, start: nat, length: nat, isTemp: bool, isOpen: bool)
  {
    function Len(): nat { if Mem? then |mem| else length }

    /** An open temporary file is written by appending, so its range always ends at its end. */
    predicate Valid() {
      File? ==> start + length <= |file| && (isTemp && isOpen ==> start + length == |file|)
    }

    function All(): seq<T>
      requires Valid()
    {
      if Mem? then mem else file[start..start + length]
    }
  }

  /** A payload and how much of it has been consumed. */
  datatype Part<T> = Part(data: Payload<T>, offset: nat) {
    predicate Valid() { data.Valid() && offset <= data.Len() }

    function Remaining(): nat
      requires Valid()
    {
      data.Len() - offset
    }

    function Bytes(): (b: seq<T>)
      requires Valid()
      ensures |b| == Remaining()
    {
      data.All()[offset..]
    }
  }

  predicate AllValid<T>(ps: seq<Part<T>>) {
    forall i {:trigger ps[i].Valid()} :: 0 <= i < |ps| ==> ps[i].Valid()
  }

  /** The bytes still to be read from a queue. */
  function Content<T>(ps: seq<Part<T>>): seq<T>
    requires AllValid(ps)
  {
    if ps == [] then [] else ps[0].Bytes() + Content(ps[1..])
  }

  ghost predicate Starts<T>(all: seq<T>, a: seq<T>, b: seq<T>) { all == a + b }

  lemma StartsOn<T>(all: seq<T>, a: seq<T>, b: seq<T>, c: seq<T>, d: seq<T>)
    requires Starts(all, a, b) && b == c + d
    ensures Starts(all, a + c, d)
  {
  }

  /** Adding a part at the front adds its bytes there. */
  lemma ContentFront<T>(ps: seq<Part<T>>, p: Part<T>)
    requires AllValid(ps) && p.Valid()
    ensures AllValid([p] + ps) && Content([p] + ps) == p.Bytes() + Content(ps)
    ensures |Content([p] + ps)| == |Content(ps)| + p.Remaining()
  {
    assert ([p] + ps)[1..] == ps;
  }

  lemma {:induction false} ContentConcat<T>(a: seq<Part<T>>, b: seq<Part<T>>)
    requires AllValid(a) && AllValid(b)
    ensures AllValid(a + b) && Content(a + b) == Content(a) + Content(b)
  {
    if a == [] {
      assert a + b == b;
    } else {
      var p, rest := a[0], a[1..];
      ContentConcat(rest, b);
      ContentFront(rest + b, p);
      HeadOut(a, b);
      Assoc(p.Bytes(), Content(rest), Content(b));
    }
  }

  lemma ContentOne<T>(p: Part<T>)
    requires p.Valid()
    ensures Content([p]) == p.Bytes()
  {
    assert [p][1..] == [];
  }

  /** And at the back. */
  lemma ContentBack<T>(ps: seq<Part<T>>, p: Part<T>)
    requires AllValid(ps) && p.Valid()
    ensures AllValid(ps + [p]) && Content(ps + [p]) == Content(ps) + p.Bytes()
    ensures |Content(ps + [p])| == |Content(ps)| + p.Remaining()
  {
    ContentOne(p);
    ContentConcat(ps, [p]);
  }

  /** Taking n bytes off the front of a part. */
  function Advance<T>(p: Part<T>, n: nat): (r: Part<T>)
    requires p.Valid() && n <= p.Remaining()
    ensures r.Valid() && r.Bytes() == p.Bytes()[n..]
  {
    p.(offset := p.offset + n)
  }

  /** The next n bytes of a memory chunk. */
  lemma FrontMem<T>(p: Part<T>, n: nat)
    requires p.Valid() && n <= p.Remaining() && p.data.Mem?
    ensures p.data.mem[p.offset..p.offset + n] == p.Bytes()[..n]
  {
  }

  function Range<T>(file: seq<T>, offset: nat, len: nat): (r: seq<T>)
    requires offset + len <= |file|
    ensures |r| == len
  {
    file[offset..offset + len]
  }

  /** The next n bytes of a file chunk. */
  lemma FrontFile<T>(p: Part<T>, n: nat)
    requires p.Valid() && n <= p.Remaining() && p.data.File?
    ensures Range(p.data.file, p.data.start + p.offset, n) == p.Bytes()[..n]
  {
  }

  // ---------- what the operations make of the chunks ----------

  /** Of s0 just the first k chunks are gone, and n bytes of the next one. */
  ghost predicate TakenAt<T>(s0: seq<Part<T>>, s1: seq<Part<T>>, k: nat, n: nat) {
    match s1
    case s =>
      AllValid(s0) && k <= |s0| &&
      if n == 0 then s == s0[k..]
      else k < |s0| && s0[k].Valid() && n < s0[k].Remaining() && s == [Advance(s0[k], n)] + s0[k + 1..]
  }

  ghost predicate FrontTaken<T>(s0: seq<Part<T>>, s1: seq<Part<T>>) {
    exists k: nat, n: nat :: TakenAt(s0, s1, k, n)
  }

  /** One chunk more is gone, or a part of one. */
  lemma TakenOnce<T>(s0: seq<Part<T>>, s1: seq<Part<T>>, s2: seq<Part<T>>, k: nat, n: nat)
    requires TakenAt(s0, s1, k, 0) && s1 != [] && s1[0].Valid()
    requires s2 == if n >= s1[0].Remaining() then s1[1..] else [Advance(s1[0], n)] + s1[1..]
    ensures k < |s0| && s0[k] == s1[0]
    ensures n >= s1[0].Remaining() ==> TakenAt(s0, s2, k + 1, 0)
    ensures 0 < n < s1[0].Remaining() ==> TakenAt(s0, s2, k, n)
    ensures n > 0 || s1[0].Remaining() == 0 ==> FrontTaken(s0, s2)
  {
    Shift(s0, k);
    if n >= s1[0].Remaining() {
      assert TakenAt(s0, s2, k + 1, 0);
    } else if n > 0 {
      assert TakenAt(s0, s2, k, n);
    }
  }

  /** A chunk of its own for the next n bytes of p: a copy of the memory, or a range of the file. */
  function Piece<T>(p: Part<T>, n: nat): (r: Part<T>)
    requires p.Valid() && n <= p.Remaining()
    ensures r.Valid()
  {
    if p.data.Mem? then Part(Mem(p.data.mem[p.offset..p.offset + n]), 0)
    else Part(File(p.data.file, p.data.start + p.offset, n, false, false), 0)
  }

  /** Without the finished chunks at the front. */
  function DropFinished<T>(ps: seq<Part<T>>): seq<Part<T>>
    requires AllValid(ps)
  {
    if ps != [] && ps[0].Remaining() == 0 then DropFinished(ps[1..]) else ps
  }

  /** With n bytes of the first chunk read; the chunk goes if that is all it has. */
  function Consumed<T>(ps: seq<Part<T>>, n: nat): seq<Part<T>>
    requires AllValid(ps) && ps != [] && n <= ps[0].Remaining()
  {
    if n == ps[0].Remaining() then ps[1..] else ps[0 := Advance(ps[0], n)]
  }

  /** With the bytes of the second chunk behind those of the first, in the second's place. */
  function Merged<T>(ps: seq<Part<T>>): (r: seq<Part<T>>)
    requires AllValid(ps) && AllMem(ps) && |ps| > 1
    ensures AllValid(r) && AllMem(r)
  {
    assert ps[0].Valid() && ps[1].Valid();
    [Part(ps[1].data, ps[1].data.Len()), Part(Mem(ps[0].data.mem + ps[1].Bytes()), ps[0].offset)] + ps[2..]
  }

  /** Merged until the first chunk has got longer or is the only one. */
  function Compacted<T>(ps: seq<Part<T>>): (bool, seq<Part<T>>)
    requires AllValid(ps) && AllMem(ps)
    decreases |ps|
  {
    if |ps| <= 1 then (false, ps)
    else
      var qs := DropFinished(Merged(ps));
      MergedShorter(ps);
      if ps[1].Remaining() > 0 then (true, qs) else Compacted(qs)
  }

  lemma {:induction false} DropFinishedSuffix<T>(ps: seq<Part<T>>)
    requires AllValid(ps)
    ensures |DropFinished(ps)| <= |ps| && DropFinished(ps) == ps[|ps| - |DropFinished(ps)|..]
  {
    if ps != [] && ps[0].Remaining() == 0 { DropFinishedSuffix(ps[1..]); }
  }

  lemma {:induction false} DroppedAre<T>(ps: seq<Part<T>>, k: nat)
    requires AllValid(ps) && k <= |ps| && (k < |ps| ==> ps[k].Remaining() > 0)
    requires forall i :: 0 <= i < k ==> ps[i].Remaining() == 0
    ensures DropFinished(ps) == ps[k..]
  {
    if k > 0 {
      DroppedAre(ps[1..], k - 1);
      assert ps[1..][k - 1..] == ps[k..];
    }
  }

  lemma HeadUpdates<T>(ps: seq<Part<T>>)
    requires AllValid(ps) && ps != []
    ensures ps[0].Valid()
    ensures forall n: nat :: n <= ps[0].Remaining() ==> ps[0 := Advance(ps[0], n)] == [Advance(ps[0], n)] + ps[1..]
  {
    forall n: nat | n <= ps[0].Remaining() ensures ps[0 := Advance(ps[0], n)] == [Advance(ps[0], n)] + ps[1..] {
      HeadUpdate(ps, Advance(ps[0], n));
    }
  }

  lemma MergedShorter<T>(ps: seq<Part<T>>)
    requires AllValid(ps) && AllMem(ps) && |ps| > 1
    ensures |DropFinished(Merged(ps))| < |ps| && AllValid(DropFinished(Merged(ps))) && AllMem(DropFinished(Merged(ps)))
  {
    var ms := Merged(ps);
    assert ms[0].Remaining() == 0;
    DropFinishedSuffix(ms[1..]);
  }

  /** An empty temporary file, open for writing. */
  function Temp<T>(): Part<T> { Part(File([], 0, 0, true, true), 0) }

  /** A temporary file that is not written to any more. */
  function Shut<T>(p: Part<T>): Part<T> {
    if p.data.File? then p.(data := p.data.(isOpen := false)) else p
  }

  /** Ready for writing: the tail is an open, unread temporary file below the limit, or else a new one is behind it. */
  function Readied<T>(ps: seq<Part<T>>, limit: nat): seq<Part<T>> {
    if !Appendable(ps) then ps + [Temp()]
    else
      var p := ps[|ps| - 1];
      if p.data.length < limit then ps else ps[|ps| - 1 := Shut(p)] + [Temp()]
  }

  /** A temporary file that more has been written to. */
  function Longer<T>(p: Part<T>, mem: seq<T>): Part<T>
    requires p.data.File?
  {
    p.(data := p.data.(file := p.data.file + mem, length := p.data.length + |mem|))
  }

  /** With more written to the temporary file at the tail. */
  function Grown<T>(ps: seq<Part<T>>, mem: seq<T>): seq<Part<T>>
    requires Appendable(ps)
  {
    ps[..|ps| - 1] + [Longer(ps[|ps| - 1], mem)]
  }

  /** With memory written to temporary files, of which each write takes as much as it says and the last one the rest. */
  function Stored<T>(ps: seq<Part<T>>, mem: seq<T>, limit: nat, writes: seq<nat>): (r: seq<Part<T>>)
    ensures Appendable(r)
    decreases |writes|
  {
    var qs := Readied(ps, limit);
    if writes == [] || writes[0] >= |mem| then Grown(qs, mem)
    else Stored(Grown(qs, mem[..writes[0]]), mem[writes[0]..], limit, writes[1..])
  }

  /** The writes that are still to come then. */
  function WritesLeft(len: nat, writes: seq<nat>): seq<nat> {
    if writes == [] then [] else if writes[0] >= len then writes[1..] else WritesLeft(len - writes[0], writes[1..])
  }

  lemma ContentFirst<T>(ps: seq<Part<T>>)
    requires AllValid(ps) && ps != []
    ensures AllValid(ps[1..]) && Content(ps) == ps[0].Bytes() + Content(ps[1..])
    ensures |Content(ps)| == ps[0].Remaining() + |Content(ps[1..])|
  {
  }

  /** Recycled chunks are kept up to this many before one more is added. */
  const KEEP: nat := 4

  /** How many are kept once some more have been given back. */
  function Recycled(kept: nat, more: nat): nat {
    if kept > KEEP then kept else if kept + more > KEEP then KEEP + 1 else kept + more
  }

  /** A queue: the list of its chunks from first to last, a stack of recycled ones, and running byte counters. */
  class Queue<T> {
    var first: Chunk?<Part<T>>
    var last: Chunk?<Part<T>>
    var unused: Chunk?<Part<T>>
    var unusedChunks: nat
    var bytesIn: int
    var bytesOut: int

    ghost var live: Chain<Chunk<Part<T>>>    // the chunks from first to last
    ghost var spare: Chain<Chunk<Part<T>>>   // the recycled chunks
    ghost var chunks: seq<Part<T>>    // what the live chunks hold

    /** All chunks that belong to this queue. */
    ghost function Nodes(): set<Chunk<Part<T>>>
      reads this`live, this`spare
    {
      live.own + spare.own
    }

    /** Both lists are linked and share no chunk; last is the true tail, and the counter the true length. */
    ghost predicate Lists()
      reads this`first, this`last, this`live, this`chunks, live.own
      reads this`unused, this`unusedChunks, this`spare, spare.own
    {
      match (live, spare)
      case (Chain(s, own), Chain(t, kept)) =>
        && Linked(first, live) && last == Last(s) && Carries(live, chunks)
        && Linked(unused, spare) && unusedChunks == |t| <= KEEP + 1
        && own !! kept
    }

    ghost predicate Valid()
      reads this, live.own, spare.own
    {
      Lists() && AllValid(chunks) && bytesIn - bytesOut == |Content(chunks)|
    }

    ghost function Bytes(): seq<T>
      requires AllValid(chunks)
      reads this`chunks
    {
      Content(chunks)
    }

    constructor ()
      ensures Valid() && chunks == [] && bytesIn == bytesOut == 0 && Nodes() == {}
    {
      first, last, unused, unusedChunks, bytesIn, bytesOut := null, null, null, 0, 0, 0;
      live, spare, chunks := Empty(), Empty(), [];
    }

    // ---------- the lists ----------

    /** The head and tail pointers are null exactly on the empty queue and otherwise lead to its ends. */
    lemma Ends()
      requires Lists()
      ensures first == null <==> chunks == []
      ensures last == null <==> chunks == []
      ensures chunks != [] ==> first == live.nodes[0] && first in live.own && first.data == chunks[0]
      ensures chunks != [] ==>
        last == live.nodes[|live.nodes| - 1] && last in live.own && last.data == chunks[|chunks| - 1]
    {
    }

    /** A recycled chunk, or a new one. */
    method Obtain() returns (c: Chunk<Part<T>>)
      requires Lists()
      modifies this`unused, this`unusedChunks, this`spare, spare.own`next
      ensures Lists() && c !in Nodes() && Nodes() <= old(Nodes()) && (fresh(c) || c in old(Nodes()))
    {
      var u, n;
      c, u, n := ChunkList.GetUnused(unused, unusedChunks, Part(Mem([]), 0), spare);
      if spare.nodes != [] { spare := Rest(spare); }
      unused, unusedChunks := u, n;
    }

    /** A chunk that is in no list is recycled, or freed if enough are kept. */
    method Recycle(c: Chunk<Part<T>>)
      requires Lists() && c !in Nodes()
      modifies this`unused, this`unusedChunks, this`spare, c
      ensures Lists() && Nodes() <= old(Nodes()) + {c}
      ensures unusedChunks == Recycled(old(unusedChunks), 1)
    {
      var u, n := ChunkList.PushUnused(unused, unusedChunks, c, Part(Mem([]), 0), spare);
      if unusedChunks <= KEEP { spare := Cons(c, spare); }
      unused, unusedChunks := u, n;
    }

    method LinkLast(c: Chunk<Part<T>>)
      requires Lists() && c !in Nodes()
      modifies this`first, this`last, this`live, this`chunks, live.own`next, c`next
      ensures Lists() && chunks == old(chunks) + [c.data] && Nodes() == old(Nodes()) + {c}
    {
      first, last := ChunkList.LinkTail(first, last, c, live);
      CarriesSnoc(live, chunks, c);
      live, chunks := Snoc(live, c), chunks + [c.data];
    }

    method LinkFirst(c: Chunk<Part<T>>)
      requires Lists() && c !in Nodes()
      modifies this`first, this`last, this`live, this`chunks, c`next
      ensures Lists() && chunks == [c.data] + old(chunks) && Nodes() == old(Nodes()) + {c}
    {
      first, last := ChunkList.LinkHead(first, last, c, live);
      CarriesCons(live, chunks, c);
      live, chunks := Cons(c, live), [c.data] + chunks;
    }

    method UnlinkFirst() returns (c: Chunk<Part<T>>)
      requires Lists() && first != null
      modifies this`first, this`last, this`live, this`chunks
      ensures Lists() && old(chunks) != [] && chunks == old(chunks)[1..] && c.data == old(chunks)[0]
      ensures c == old(first) && c in old(Nodes()) && c !in Nodes() && Nodes() == old(Nodes()) - {c}
    {
      c := first;
      first, last := ChunkList.UnlinkHead(c, last, live);
      CarriesRest(live, chunks);
      live, chunks := Rest(live), chunks[1..];
    }

    /** A whole list that belongs to no queue any more goes to the end. */
    method LinkList(head: Chunk<Part<T>>, tail: Chunk?<Part<T>>, ghost l: Chain<Chunk<Part<T>>>,
                    ghost parts: seq<Part<T>>)
      requires Lists() && Linked(head, l) && tail == Last(l.nodes) && Carries(l, parts) && l.own !! Nodes()
      modifies this`first, this`last, this`live, this`chunks, live.own`next
      ensures Lists() && chunks == old(chunks) + parts && Nodes() == old(Nodes()) + l.own
    {
      first, last := ChunkList.Splice(first, last, head, tail, live, l);
      CarriesBoth(live, chunks, l, parts);
      live, chunks := Both(live, l), chunks + parts;
    }

    /** Gives up all live chunks; they are another's now. */
    method Detach()
      requires Lists()
      modifies this`first, this`last, this`live, this`chunks
      ensures Lists() && chunks == [] && Nodes() == old(Nodes()) - old(live.own)
    {
      first, last, live, chunks := null, null, Empty(), [];
    }

    /** A live chunk gets new data. */
    method Update(c: Chunk<Part<T>>, ghost i: nat, p: Part<T>)
      requires Lists() && i < |live.nodes| && c == live.nodes[i]
      modifies this`chunks, c`data
      ensures Lists() && i < |old(chunks)| && chunks == old(chunks)[i := p]
    {
      c.data := p;
      chunks := chunks[i := p];
    }

    /** A recycled or new chunk with this data goes to the end. */
    method PutLast(p: Part<T>)
      requires Lists()
      modifies this`first, this`last, this`live, this`chunks
      modifies this`unused, this`unusedChunks, this`spare, Nodes()
      ensures Lists() && chunks == old(chunks) + [p] && (forall n :: n in Nodes() ==> n in old(Nodes()) || fresh(n))
    {
      var c := Obtain();
      c.data := p;
      LinkLast(c);
    }

    /** And to the front. */
    method PutFirst(p: Part<T>)
      requires Lists()
      modifies this`first, this`last, this`live, this`chunks
      modifies this`unused, this`unusedChunks, this`spare, Nodes()
      ensures Lists() && chunks == [p] + old(chunks) && (forall n :: n in Nodes() ==> n in old(Nodes()) || fresh(n))
    {
      var c := Obtain();
      c.data := p;
      LinkFirst(c);
    }

    // ---------- appending and dropping ----------

    method AppendChunk(p: Part<T>)
      requires Valid() && p.Valid()
      modifies this, Nodes()
      ensures Valid() && chunks == old(chunks) + [p] && Bytes() == old(Bytes()) + p.Bytes()
      ensures bytesIn == old(bytesIn) + p.Remaining() && bytesOut == old(bytesOut)
      ensures forall n :: n in Nodes() ==> n in old(Nodes()) || fresh(n)
    {
      ContentBack(chunks, p);
      PutLast(p);
      bytesIn := bytesIn + p.Remaining();
    }

    method PrependChunk(p: Part<T>)
      requires Valid() && p.Valid()
      modifies this, Nodes()
      ensures Valid() && chunks == [p] + old(chunks) && Bytes() == p.Bytes() + old(Bytes())
      ensures bytesIn == old(bytesIn) + p.Remaining() && bytesOut == old(bytesOut)
      ensures forall n :: n in Nodes() ==> n in old(Nodes()) || fresh(n)
    {
      ContentFront(chunks, p);
      PutFirst(p);
      bytesIn := bytesIn + p.Remaining();
    }

    /** Unlinks the first chunk and recycles it, whatever is left in it. */
    method Discard()
      requires Lists() && first != null
      modifies this`first, this`last, this`live, this`chunks
      modifies this`unused, this`unusedChunks, this`spare, Nodes()
      ensures Lists() && old(chunks) != [] && chunks == old(chunks)[1..] && Nodes() <= old(Nodes())
      ensures unusedChunks == Recycled(old(unusedChunks), 1)
    {
      var c := UnlinkFirst();
      Recycle(c);
    }

    /** Drops the first chunk, which is finished. */
    method DropFirst()
      requires Valid() && first != null && first.data.Valid() && first.data.Remaining() == 0
      modifies this, Nodes()
      ensures Valid() && old(chunks) != [] && chunks == old(chunks)[1..] && Bytes() == old(Bytes())
      ensures bytesIn == old(bytesIn) && bytesOut == old(bytesOut) && Nodes() <= old(Nodes())
    {
      Ends();
      ContentFirst(chunks);
      assert chunks[0].Bytes() == [];
      Discard();
    }

    method AppendMem(mem: seq<T>)
      requires Valid()
      modifies this, Nodes()
      ensures Valid() && Bytes() == old(Bytes()) + mem && bytesIn == old(bytesIn) + |mem| && bytesOut == old(bytesOut)
      ensures forall n :: n in Nodes() ==> n in old(Nodes()) || fresh(n)
      ensures chunks == old(chunks) + if mem == [] then [] else [Part(Mem(mem), 0)]
    {
      if |mem| == 0 { return; }
      AppendChunk(Part(Mem(mem), 0));
    }

    method PrependBuffer(mem: seq<T>)
      requires Valid()
      modifies this, Nodes()
      ensures Valid() && Bytes() == mem + old(Bytes()) && bytesIn == old(bytesIn) + |mem| && bytesOut == old(bytesOut)
      ensures forall n :: n in Nodes() ==> n in old(Nodes()) || fresh(n)
      ensures chunks == (if mem == [] then [] else [Part(Mem(mem), 0)]) + old(chunks)
    {
      if |mem| == 0 { return; }
      PrependChunk(Part(Mem(mem), 0));
    }

    method AppendFile(file: seq<T>, offset: nat, len: nat)
      requires Valid() && offset + len <= |file|
      modifies this, Nodes()
      ensures Valid() && Bytes() == old(Bytes()) + Range(file, offset, len)
      ensures bytesIn == old(bytesIn) + len && bytesOut == old(bytesOut)
      ensures forall n :: n in Nodes() ==> n in old(Nodes()) || fresh(n)
      ensures chunks == old(chunks) + if len == 0 then [] else [Part(File(file, offset, len, false, false), 0)]
    {
      if len == 0 { return; }
      AppendChunk(Part(File(file, offset, len, false, false), 0));
    }

    /** Appends the next n bytes of a chunk: a copy of the memory, or a range of the file. */
    method AppendFront(c: Part<T>, n: nat)
      requires Valid() && c.Valid() && n <= c.Remaining()
      modifies this, Nodes()
      ensures Valid() && Bytes() == old(Bytes()) + c.Bytes()[..n] && bytesIn == old(bytesIn) + n &&
        bytesOut == old(bytesOut)
      ensures forall n :: n in Nodes() ==> n in old(Nodes()) || fresh(n)
      ensures n > 0 ==> chunks == old(chunks) + [Piece(c, n)]
    {
      if c.data.Mem? { AppendMemFront(c, n); } else { AppendFileFront(c, n); }
    }

    method AppendMemFront(c: Part<T>, n: nat)
      requires Valid() && c.Valid() && n <= c.Remaining() && c.data.Mem?
      modifies this, Nodes()
      ensures Valid() && Bytes() == old(Bytes()) + c.Bytes()[..n] && bytesIn == old(bytesIn) + n &&
        bytesOut == old(bytesOut)
      ensures forall n :: n in Nodes() ==> n in old(Nodes()) || fresh(n)
      ensures n > 0 ==> chunks == old(chunks) + [Piece(c, n)]
    {
      var piece := c.data.mem[c.offset..c.offset + n];
      FrontMem(c, n);
      AppendMem(piece);
    }

    method AppendFileFront(c: Part<T>, n: nat)
      requires Valid() && c.Valid() && n <= c.Remaining() && c.data.File?
      modifies this, Nodes()
      ensures Valid() && Bytes() == old(Bytes()) + c.Bytes()[..n] && bytesIn == old(bytesIn) + n &&
        bytesOut == old(bytesOut)
      ensures forall n :: n in Nodes() ==> n in old(Nodes()) || fresh(n)
      ensures n > 0 ==> chunks == old(chunks) + [Piece(c, n)]
    {
      FrontFile(c, n);
      AppendFile(c.data.file, c.data.start + c.offset, n);
    }

    /** The sum of what remains in the chunks, from first to last. */
    method Length() returns (len: nat)
      requires Valid()
      ensures len == |Bytes()| == bytesIn - bytesOut
    {
      len := 0;
      var c := first;
      ghost var i := 0;
      while c != null
        invariant 0 <= i <= |live.nodes| && c == At(live.nodes, i)
        invariant len + |Content(chunks[i..])| == |Content(chunks)|
        decreases |live.nodes| - i
      {
        assert live.nodes[i].data == chunks[i];
        Shift(chunks, i);
        ContentFirst(chunks[i..]);
        len := len + c.data.Remaining();
        c := c.next;
        i := i + 1;
      }
    }

    /** Removes all finished chunks at the front. */
    method RemoveFinished()
      requires Valid()
      modifies this, Nodes()
      ensures Valid() && Bytes() == old(Bytes()) && bytesIn == old(bytesIn) && bytesOut == old(bytesOut) &&
        Nodes() <= old(Nodes())
      ensures chunks != [] ==> chunks[0].Remaining() > 0
      ensures |chunks| <= |old(chunks)| && chunks == old(chunks)[|old(chunks)| - |chunks|..]
      ensures forall i :: 0 <= i < |old(chunks)| - |chunks| ==> old(chunks)[i].Remaining() == 0
      ensures chunks == DropFinished(old(chunks))
    {
      ghost var k, was := 0, chunks;
      Ends();
      while first != null && first.data.Remaining() == 0
        invariant Valid() && Bytes() == old(Bytes()) && bytesIn == old(bytesIn) && bytesOut == old(bytesOut) &&
          Nodes() <= old(Nodes())
        invariant k <= |was| && chunks == was[k..] && AllValid(was)
        invariant forall i :: 0 <= i < k ==> was[i].Remaining() == 0
        invariant first != null ==> chunks != [] && first.data == chunks[0]
        invariant chunks != [] ==> first != null
        decreases |chunks|
      {
        assert chunks[0] == was[k];
        DropFirst();
        Ends();
        k := k + 1;
      }
      DroppedAre(was, k);
    }

    /** Empties the queue, recycling its chunks, and sets both counters back to zero. */
    method Reset()
      requires Valid()
      modifies this, Nodes()
      ensures Valid() && chunks == [] && bytesIn == bytesOut == 0 && Nodes() <= old(Nodes())
      ensures unusedChunks == Recycled(old(unusedChunks), |old(chunks)|)
    {
      var cur := first;
      ghost var l := live;
      first, last, live, chunks := null, null, Empty(), [];
      while cur != null
        invariant Lists() && chunks == [] && Linked(cur, l) && l.own !! Nodes() && Nodes() + l.own <= old(Nodes())
        invariant Recycled(unusedChunks, |l.nodes|) == Recycled(old(unusedChunks), |old(chunks)|)
        decreases |l.nodes|
      {
        cur, l := RecycleNext(cur, l);
      }
      bytesIn, bytesOut := 0, 0;
    }

    /** Recycles the head of a list that is no longer live. */
    method RecycleNext(cur: Chunk<Part<T>>, ghost l: Chain<Chunk<Part<T>>>)
      returns (next: Chunk?<Part<T>>, ghost l': Chain<Chunk<Part<T>>>)
      requires Lists() && Linked(cur, l) && l.own !! Nodes()
      modifies this`unused, this`unusedChunks, this`spare, cur
      ensures cur in l.own && Lists() && Linked(next, l') && l'.own !! Nodes() && |l'.nodes| == |l.nodes| - 1
      ensures Nodes() + l'.own <= old(Nodes()) + l.own && unusedChunks == Recycled(old(unusedChunks), 1)
    {
      assert l.nodes != [];
      LinkedRest(cur, l);
      next := cur.next;
      l' := Rest(l);
      Recycle(cur);
    }

    /** One turn of MarkWritten: finishes the first chunk, or part of it. */
    method FinishFirst(written: nat) returns (use: nat, ghost gone: seq<T>)
      requires Lists() && AllValid(chunks) && first != null
      requires first.data.Valid() && (written > 0 || first.data.Remaining() == 0)
      modifies this`first, this`last, this`live, this`chunks
      modifies this`unused, this`unusedChunks, this`spare, Nodes()
      ensures Lists() && AllValid(chunks) && Nodes() <= old(Nodes())
      ensures use == |gone| <= written && old(Bytes()) == gone + Bytes()
      ensures |chunks| + written - use < old(|chunks|) + written
      ensures old(chunks) != [] && old(chunks)[0].Valid()
      ensures if written >= old(chunks)[0].Remaining()
        then use == old(chunks)[0].Remaining() && chunks == old(chunks)[1..]
        else use == written && chunks == [Advance(old(chunks)[0], written)] + old(chunks)[1..]
    {
      Ends();
      ContentFirst(chunks);
      HeadUpdates(chunks);
      var p := first.data;
      if written >= p.Remaining() {
        use, gone := p.Remaining(), p.Bytes();
        Discard();
      } else {
        use, gone := written, p.Bytes()[..written];
        AdvanceFirst(use);
      }
    }

    /** Takes n bytes off the first chunk, which stays. */
    method AdvanceFirst(n: nat)
      requires Lists() && AllValid(chunks) && first != null && first.data.Valid() && n <= first.data.Remaining()
      modifies this`chunks, live.own`data
      ensures Lists() && AllValid(chunks) && |chunks| == old(|chunks|)
      ensures old(chunks) != [] && old(Bytes()) == old(chunks)[0].Bytes()[..n] + Bytes()
      ensures chunks == old(chunks)[0 := Advance(old(chunks)[0], n)]
    {
      Ends();
      SplitFirst(chunks, n);
      HeadUpdate(chunks, Advance(chunks[0], n));
      Update(first, 0, Advance(first.data, n));
    }

    /** Consumes n bytes that have been written out, and drops every chunk they finish. */
    method MarkWritten(n: nat)
      requires Valid() && n <= |Bytes()|
      modifies this, Nodes()
      ensures Valid() && Bytes() == old(Bytes())[n..] && bytesOut == old(bytesOut) + n && bytesIn == old(bytesIn)
      ensures chunks != [] ==> chunks[0].Remaining() > 0
      ensures Nodes() <= old(Nodes())
      ensures FrontTaken(old(chunks), chunks)
    {
      ghost var gone := FinishChunks(n);
      Slices(old(Bytes()), gone, Bytes());
      bytesOut := bytesOut + n;
    }

    /** The loop of MarkWritten. */
    method FinishChunks(n: nat) returns (ghost gone: seq<T>)
      requires Lists() && AllValid(chunks) && n <= |Bytes()|
      modifies this`first, this`last, this`live, this`chunks
      modifies this`unused, this`unusedChunks, this`spare, Nodes()
      ensures Lists() && AllValid(chunks) && Nodes() <= old(Nodes()) && |gone| == n
      ensures Starts(old(Bytes()), gone, Bytes()) && FrontTaken(old(chunks), chunks)
      ensures chunks != [] ==> chunks[0].Remaining() > 0
    {
      var written := n;
      gone := [];
      ghost var k, was := 0, chunks;
      assert TakenAt(was, chunks, 0, 0);
      Ends();
      while first != null && (written > 0 || first.data.Remaining() == 0)
        invariant Lists() && AllValid(chunks) && |gone| + written == n && Nodes() <= old(Nodes())
        invariant Starts(old(Bytes()), gone, Bytes()) && FrontTaken(was, chunks)
        invariant (written > 0 || (chunks != [] && chunks[0].Remaining() == 0)) ==> TakenAt(was, chunks, k, 0)
        invariant first != null ==> chunks != [] && first.data == chunks[0]
        invariant chunks != [] ==> first != null
        decreases |chunks| + written
      {
        ghost var before, prior := Bytes(), chunks;
        var use, more := FinishFirst(written);
        Ends();
        StartsOn(old(Bytes()), gone, before, more, Bytes());
        TakenOnce(was, prior, chunks, k, written);
        written := written - use;
        gone := gone + more;
        k := k + 1;
      }
      assert chunks == [] ==> Bytes() == [];
    }

    /** Takes `use` bytes off the first chunk, which are all it has or fewer. */
    method Consume(use: nat)
      requires Valid() && first != null && first.data.Valid() && 0 < use <= first.data.Remaining()
      modifies this, Nodes()
      ensures Valid() && old(chunks) != [] && old(Bytes()) == old(chunks)[0].Bytes()[..use] + Bytes()
      ensures |chunks| <= old(|chunks|) && bytesOut == old(bytesOut) + use && bytesIn == old(bytesIn) &&
        Nodes() <= old(Nodes())
      ensures chunks == Consumed(old(chunks), use)
    {
      Ends();
      if use == first.data.Remaining() {
        ContentFirst(chunks);
        TakeAll(chunks[0].Bytes());
        Discard();
      } else {
        AdvanceFirst(use);
      }
      bytesOut := bytesOut + use;
    }

    // ---------- memory and temporary files at the tail ----------

    /** The tail gets new data. */
    method UpdateLast(p: Part<T>)
      requires Lists() && AllValid(chunks) && last != null && p.Valid()
      modifies this`chunks, live.own`data
      ensures Lists() && AllValid(chunks) && old(chunks) != [] && chunks == old(chunks)[..|old(chunks)| - 1] + [p]
    {
      Ends();
      TailUpdate(chunks, p);
      Update(last, |live.nodes| - 1, p);
    }

    /** Room to write into: the last memory buffer if it is used again, else a new empty one. */
    method GetMemory(reuse: bool)
      requires Valid()
      modifies this, Nodes()
      ensures Valid() && Bytes() == old(Bytes()) && bytesIn == old(bytesIn) && bytesOut == old(bytesOut)
      ensures last != null && chunks != [] && chunks[|chunks| - 1].data.Mem?
      ensures forall n :: n in Nodes() ==> n in old(Nodes()) || fresh(n)
      ensures chunks == old(chunks) +
        if reuse && old(chunks != [] && chunks[|chunks| - 1].data.Mem?) then [] else [Part(Mem([]), 0)]
    {
      Ends();
      if last != null && last.data.data.Mem? && reuse { return; }
      AppendChunk(Part(Mem([]), 0));
      Ends();
    }

    /** Commits what was written into that room. */
    method UseMemory(written: seq<T>)
      requires Valid() && last != null && chunks != [] && chunks[|chunks| - 1].data.Mem?
      modifies this, Nodes()
      ensures Valid() && Bytes() == old(Bytes()) + written && bytesIn == old(bytesIn) + |written| &&
        bytesOut == old(bytesOut)
      ensures Nodes() == old(Nodes())
      ensures chunks == old(chunks)[..old(|chunks|) - 1] +
        [old(chunks)[old(|chunks|) - 1].(data := Mem(old(chunks)[old(|chunks|) - 1].data.mem + written))]
    {
      Ends();
      var p := last.data;
      var grown := p.(data := Mem(p.data.mem + written));
      GrownMem(p, written);
      GrowLast(chunks, grown, written);
      UpdateLast(grown);
      bytesIn := bytesIn + |written|;
    }

    /** Closes the last temporary file once it has reached the size limit. */
    method CloseFullTempfile(limit: nat)
      requires Valid()
      modifies this`chunks, live.own`data
      ensures Valid() && Bytes() == old(Bytes())
      ensures chunks == if old(Appendable(chunks)) && old(chunks)[old(|chunks|) - 1].data.length >= limit
        then old(chunks)[old(|chunks|) - 1 := Shut(old(chunks)[old(|chunks|) - 1])] else old(chunks)
      ensures |chunks| == old(|chunks|) && Nodes() == old(Nodes())
    {
      Ends();
      if last != null && StillOpen(last.data) && last.data.data.length >= limit {
        var p := last.data;
        var closed := p.(data := p.data.(isOpen := false));
        assert chunks[|chunks| - 1].Valid() && closed.Bytes() == p.Bytes();
        ReplaceLast(chunks, closed);
        UpdateLast(closed);
      }
    }

    /** The tail chunk becomes an open temporary file that may still grow. */
    method NeedTempfile(limit: nat)
      requires Valid()
      modifies this, Nodes()
      ensures Valid() && Bytes() == old(Bytes()) && bytesIn == old(bytesIn) && bytesOut == old(bytesOut)
      ensures Appendable(chunks)
      ensures chunks[|chunks| - 1].data.length < limit || chunks[|chunks| - 1].data.length == 0
      ensures forall n :: n in Nodes() ==> n in old(Nodes()) || fresh(n)
      ensures chunks == Readied(old(chunks), limit)
    {
      CloseFullTempfile(limit);
      Ends();
      if !(last != null && StillOpen(last.data)) {
        OpenTempfile();
      }
    }

    /** A new, empty temporary file at the tail. */
    method OpenTempfile()
      requires Valid()
      modifies this, Nodes()
      ensures Valid() && Bytes() == old(Bytes()) && bytesIn == old(bytesIn) && bytesOut == old(bytesOut)
      ensures Appendable(chunks) && chunks[|chunks| - 1].data.length == 0
      ensures forall n :: n in Nodes() ==> n in old(Nodes()) || fresh(n)
      ensures chunks == old(chunks) + [Temp()]
    {
      var p := Part(File([], 0, 0, true, true), 0);
      assert p.Bytes() == [];
      AppendChunk(p);
      Nothing(old(Bytes()));
    }

    /** write() on the tail's temporary file, which appends to it. */
    method WriteTail(mem: seq<T>)
      requires Valid() && Appendable(chunks)
      modifies this, Nodes()
      ensures old(Appendable(chunks)) && chunks == Grown(old(chunks), mem) && Appendable(chunks)
      ensures Valid() && Bytes() == old(Bytes()) + mem && bytesIn == old(bytesIn) + |mem| && bytesOut == old(bytesOut)
      ensures Nodes() == old(Nodes())
    {
      Ends();
      var p := last.data;
      var grown := Longer(p, mem);
      GrownFile(p, mem);
      GrowLast(chunks, grown, mem);
      UpdateLast(grown);
      bytesIn := bytesIn + |mem|;
    }

    /**
     Appends memory through temporary files. `writes` scripts how much each call of write()
     accepts (0 also stands for an interrupted call); when it runs out, write() accepts
     everything. Each retry looks at the tail again, so the bytes may end up in several files.
     */
    method AppendMemToTempfile(mem: seq<T>, limit: nat, writes: seq<nat>) returns (later: seq<nat>)
      requires Valid()
      modifies this, Nodes()
      ensures Valid() && Bytes() == old(Bytes()) + mem && bytesIn == old(bytesIn) + |mem| && bytesOut == old(bytesOut)
      ensures chunks == Stored(old(chunks), mem, limit, writes) && later == WritesLeft(|mem|, writes)
      ensures Appendable(chunks) && OnlyTempsAdded(old(chunks), chunks)
      ensures forall n :: n in Nodes() ==> n in old(Nodes()) || fresh(n)
    {
      StoredInFiles(chunks, mem, limit, writes);
      later := StoreMem(mem, limit, writes);
    }

    method StoreMem(mem: seq<T>, limit: nat, writes: seq<nat>) returns (later: seq<nat>)
      requires Valid()
      modifies this, Nodes()
      ensures Valid() && Bytes() == old(Bytes()) + mem && bytesIn == old(bytesIn) + |mem| && bytesOut == old(bytesOut)
      ensures chunks == Stored(old(chunks), mem, limit, writes) && later == WritesLeft(|mem|, writes)
      ensures forall n :: n in Nodes() ==> n in old(Nodes()) || fresh(n)
    {
      var rest := mem;
      later := writes;
      StoredContent(chunks, mem, limit, writes);
      while later != [] && later[0] < |rest|
        invariant Valid() && forall n :: n in Nodes() ==> n in old(Nodes()) || fresh(n)
        invariant bytesIn == old(bytesIn) + |mem| - |rest| && bytesOut == old(bytesOut)
        invariant Stored(chunks, rest, limit, later) == Stored(old(chunks), mem, limit, writes)
        invariant WritesLeft(|rest|, later) == WritesLeft(|mem|, writes)
        decreases |later|
      {
        WriteNext(rest[..later[0]], limit);
        rest := rest[later[0]..];
        later := later[1..];
      }
      WriteNext(rest, limit);
      if later != [] { later := later[1..]; }
    }

    /** Looks for a temporary file at the tail, opens one if there is none to use, and writes to it. */
    method WriteNext(mem: seq<T>, limit: nat)
      requires Valid()
      modifies this, Nodes()
      ensures Valid() && Bytes() == old(Bytes()) + mem && bytesIn == old(bytesIn) + |mem| && bytesOut == old(bytesOut)
      ensures chunks == Grown(Readied(old(chunks), limit), mem)
      ensures forall n :: n in Nodes() ==> n in old(Nodes()) || fresh(n)
    {
      NeedTempfile(limit);
      WriteTail(mem);
    }

    // ---------- merging and taking at the front ----------

    /**
     Merges the first memory chunk with the next non-empty one. Leaves the content alone;
     answers true iff the first chunk got longer, else at most one chunk is left.
     */
    method Compact() returns (merged: bool)
      requires Valid() && AllMem(chunks)
      modifies this, Nodes()
      ensures Valid() && AllMem(chunks) && Bytes() == old(Bytes()) && bytesIn == old(bytesIn) &&
        bytesOut == old(bytesOut)
      ensures merged ==> chunks != [] && old(chunks) != [] && chunks[0].Remaining() > old(chunks)[0].Remaining()
      ensures !merged ==> |chunks| <= 1
      ensures Nodes() <= old(Nodes())
      ensures (merged, chunks) == Compacted(old(chunks))
    {
      Ends();
      ghost var was := chunks;
      if first == null || first.next == null { return false; }
      while first != null && first.next != null
        invariant Valid() && AllMem(chunks) && Bytes() == old(Bytes()) && bytesIn == old(bytesIn) &&
          bytesOut == old(bytesOut)
        invariant Nodes() <= old(Nodes()) && was != [] && was[0].Valid()
        invariant chunks != [] ==> chunks[0].Remaining() >= was[0].Remaining()
        invariant Compacted(chunks) == Compacted(was)
        decreases |chunks|
      {
        Second();
        var blen := first.next.data.Remaining();
        MergeFirst();
        if blen != 0 { return true; }
      }
      Ends();
      if first != null { assert live.nodes[0].next == null; }
      return false;
    }

    /** The chunk behind the first. */
    lemma Second()
      requires Lists() && first != null && first.next != null
      ensures |chunks| > 1 && first == live.nodes[0] && first.next == live.nodes[1] && first.next in live.own
      ensures first.data == chunks[0] && first.next.data == chunks[1]
    {
      assert live.nodes[0].next == At(live.nodes, 1);
      assert live.nodes[1].data == chunks[1] && live.nodes[0].data == chunks[0];
    }

    /** One turn of Compact: appends the second chunk's bytes to the first's buffer and swaps buffers. */
    method MergeFirst()
      requires Valid() && AllMem(chunks) && first != null && first.next != null
      modifies this, Nodes()
      ensures Valid() && AllMem(chunks) && Bytes() == old(Bytes()) && |chunks| < old(|chunks|) &&
        Nodes() <= old(Nodes())
      ensures bytesIn == old(bytesIn) && bytesOut == old(bytesOut)
      ensures |old(chunks)| > 1 && AllMem(old(chunks))
      ensures old(chunks)[1].Remaining() > 0 ==>
        chunks != [] && chunks[0].Remaining() == old(chunks)[0].Remaining() + old(chunks)[1].Remaining()
      ensures chunks != [] ==> chunks[0].Remaining() >= old(chunks)[0].Remaining()
      ensures chunks == DropFinished(Merged(old(chunks)))
    {
      Second();
      var a, b := first.data, first.next.data;
      var joined := Part(Mem(a.data.mem + b.Bytes()), a.offset);
      var used := Part(b.data, b.data.Len());
      SwapTwo(joined, used);
      ghost var mid := chunks;
      assert mid[0] == used && mid[1] == joined;
      RemoveFinished();
      assert chunks == mid[|mid| - |chunks|..];
    }

    /** Gives the first two chunks new data with the same bytes in all. */
    method SwapTwo(joined: Part<T>, used: Part<T>)
      requires Valid() && first != null && first.next != null && |chunks| > 1 && chunks[0].data.Mem? &&
        chunks[1].data.Mem?
      requires joined == Part(Mem(chunks[0].data.mem + chunks[1].Bytes()), chunks[0].offset)
      requires used == Part(chunks[1].data, chunks[1].data.Len())
      modifies this`chunks, live.own`data
      ensures Valid() && chunks == [used, joined] + old(chunks)[2..] && Bytes() == old(Bytes())
      ensures joined.Valid() && used.Valid() && used.Remaining() == 0
      ensures joined.Remaining() == old(chunks)[0].Remaining() + old(chunks)[1].Remaining()
    {
      Second();
      MergeContent(chunks[0], chunks[1], joined, used, chunks[2..]);
      TwoUpdates(chunks, used, joined);
      Update(first.next, 1, joined);
      Update(first, 0, used);
    }

    /**
     Takes the request header off the front: every chunk before `end` in full and n bytes of
     that one. Chunks stay in the list, finished.
     */
    method TakeHeader(end: Chunk<Part<T>>, ghost k: nat, n: nat) returns (header: seq<T>)
      requires Valid() && AllMem(chunks) && k < |live.nodes| && live.nodes[k] == end && n <= chunks[k].Remaining()
      modifies this`chunks, this`bytesOut, live.own`data
      ensures Valid() && old(Bytes()) == header + Bytes() && |chunks| == old(|chunks|) && bytesIn == old(bytesIn)
      ensures header == Content(old(chunks)[..k]) + old(chunks)[k].Bytes()[..n]
      ensures bytesOut == old(bytesOut) + |header|
    {
      header := [];
      var c := first;
      ghost var i, all := 0, chunks;
      TakenNone(chunks);
      while c != end
        invariant i <= k < |live.nodes| && c == live.nodes[i] && live == old(live)
        invariant Valid() && Taken(all, chunks, i, header)
        invariant bytesOut == old(bytesOut) + |header|
        decreases k - i
      {
        header := TakeWhole(all, c, i, header);
        c := c.next;
        i := i + 1;
      }
      assert i == k;
      header := TakeLast(all, c, i, header, n);
    }

    method TakeWhole(ghost all: seq<Part<T>>, c: Chunk<Part<T>>, ghost i: nat, header: seq<T>) returns (longer: seq<T>)
      requires Valid() && i < |all| && i < |live.nodes| && live.nodes[i] == c && Taken(all, chunks, i, header)
      modifies this`chunks, this`bytesOut, live.own`data
      ensures Valid() && Taken(all, chunks, i + 1, longer) && c.next == At(live.nodes, i + 1)
      ensures bytesOut == old(bytesOut) + |longer| - |header|
    {
      ghost var was := chunks;
      assert live.nodes[i].data == chunks[i];
      var n := c.data.Remaining();
      var taken := TakeFrom(c, i, n);
      TakeAll(was[i].Bytes());
      TakenOn(all, was, chunks, i, header);
      longer := header + taken;
    }

    method TakeLast(ghost all: seq<Part<T>>, c: Chunk<Part<T>>, ghost k: nat, header: seq<T>, n: nat)
      returns (longer: seq<T>)
      requires Valid() && k < |all| && k < |live.nodes| && live.nodes[k] == c && Taken(all, chunks, k, header) &&
        n <= all[k].Remaining()
      modifies this`chunks, this`bytesOut, live.own`data
      ensures Valid() && |chunks| == |all|
      ensures longer == Content(all[..k]) + all[k].Bytes()[..n] && Content(all) == longer + Bytes()
      ensures bytesOut == old(bytesOut) + |longer| - |header|
    {
      ghost var before := Bytes();
      Shift(chunks, k);
      Shift(all, k);
      var taken := TakeFrom(c, k, n);
      StartsOn(Content(all), header, before, taken, Bytes());
      longer := header + taken;
    }

    /** Advances chunk c, all chunks before it being finished. */
    method TakeFrom(c: Chunk<Part<T>>, ghost i: nat, n: nat) returns (taken: seq<T>)
      requires Valid() && i < |live.nodes| && live.nodes[i] == c && n <= chunks[i].Remaining() &&
        Content(chunks[..i]) == []
      modifies this`chunks, this`bytesOut, live.own`data
      ensures Valid() && i < |old(chunks)| && old(Bytes()) == taken + Bytes() && taken == old(chunks)[i].Bytes()[..n]
      ensures chunks == old(chunks)[i := Advance(old(chunks)[i], n)]
      ensures bytesOut == old(bytesOut) + n
    {
      assert live.nodes[i].data == chunks[i];
      taken := c.data.Bytes()[..n];
      AdvanceAt(chunks, i, n);
      Update(c, i, Advance(c.data, n));
      bytesOut := bytesOut + n;
    }
  }

  lemma HeadUpdate<T>(ps: seq<Part<T>>, p: Part<T>)
    requires ps != []
    ensures ps[0 := p] == [p] + ps[1..]
  {
  }

  lemma TailUpdate<T>(ps: seq<Part<T>>, p: Part<T>)
    requires ps != [] && AllValid(ps) && p.Valid()
    ensures ps[|ps| - 1 := p] == ps[..|ps| - 1] + [p] && AllValid(ps[|ps| - 1 := p])
  {
  }

  lemma TwoUpdates<T>(ps: seq<Part<T>>, a: Part<T>, b: Part<T>)
    requires |ps| > 1
    ensures ps == [ps[0], ps[1]] + ps[2..] && ps[1 := b][0 := a] == [a, b] + ps[2..]
  {
  }

  lemma FinishedPrefix<T>(was: seq<Part<T>>, now: seq<Part<T>>, i: nat)
    requires AllValid(was) && i < |was| && Content(was[..i]) == []
    requires now == was[i := Advance(was[i], was[i].Remaining())]
    ensures AllValid(now) && Content(now[..i + 1]) == [] && now[i + 1..] == was[i + 1..]
  {
    assert now[..i + 1] == was[..i] + [now[i]];
    ContentBack(was[..i], now[i]);
    assert now[i].Bytes() == [];
  }

  lemma FinishedFirst<T>(ps: seq<Part<T>>, i: nat)
    requires AllValid(ps) && i <= |ps| && Content(ps[..i]) == []
    ensures Content(ps) == Content(ps[i..])
  {
    var a, b := ps[..i], ps[i..];
    ContentConcat(a, b);
    Cut(ps, i);
    Nothing(Content(b));
  }

  /** The first i chunks of a queue have been taken into `header`, the others are as they were. */
  ghost predicate Taken<T>(all: seq<Part<T>>, now: seq<Part<T>>, i: nat, header: seq<T>) {
    AllValid(all) && AllValid(now) && |now| == |all| && i <= |all| && AllRead(all, now, i) &&
    now[i..] == all[i..] && Content(now[..i]) == [] &&
    header == Content(all[..i]) && Starts(Content(all), header, Content(now))
  }

  /** The first i chunks have been read to their end. */
  ghost predicate AllRead<T>(all: seq<Part<T>>, now: seq<Part<T>>, i: nat)
    requires AllValid(all) && |now| == |all| && i <= |all|
  {
    forall j {:trigger now[j]} :: 0 <= j < i ==> all[j].Valid() && now[j] == Advance(all[j], all[j].Remaining())
  }

  lemma TakenNone<T>(all: seq<Part<T>>)
    requires AllValid(all)
    ensures Taken(all, all, 0, [])
  {
  }

  lemma TakenOn<T>(all: seq<Part<T>>, was: seq<Part<T>>, now: seq<Part<T>>, i: nat, header: seq<T>)
    requires i < |all| && Taken(all, was, i, header)
    requires now == was[i := Advance(was[i], was[i].Remaining())]
    requires AllValid(now) && Content(was) == was[i].Bytes() + Content(now)
    ensures Taken(all, now, i + 1, header + was[i].Bytes())
  {
    Shift(was, i);
    Shift(all, i);
    FinishedPrefix(was, now, i);
    ContentBack(all[..i], all[i]);
    StartsOn(Content(all), header, Content(was), was[i].Bytes(), Content(now));
  }

  lemma AdvanceAt<T>(ps: seq<Part<T>>, i: nat, n: nat)
    requires AllValid(ps) && i < |ps| && n <= ps[i].Remaining() && Content(ps[..i]) == []
    ensures var next := ps[i := Advance(ps[i], n)];
      AllValid(next) && Content(ps) == ps[i].Bytes()[..n] + Content(next)
  {
    var next := ps[i := Advance(ps[i], n)];
    FinishedFirst(ps, i);
    SplitFirst(ps[i..], n);
    assert next[i..] == [Advance(ps[i], n)] + ps[i..][1..];
    assert next[..i] == ps[..i];
    FinishedFirst(next, i);
  }

  /** The tail is an unread temporary file that is still open. */
  predicate Appendable<T>(ps: seq<Part<T>>) {
    ps != [] && StillOpen(ps[|ps| - 1])
  }

  predicate StillOpen<T>(p: Part<T>) {
    p.data.File? && p.data.isTemp && p.data.isOpen && p.offset == 0
  }

  predicate AllMem<T>(ps: seq<Part<T>>) {
    forall i :: 0 <= i < |ps| ==> ps[i].data.Mem?
  }

  /** Advancing the first chunk by n takes n bytes off the front. */
  lemma SplitFirst<T>(ps: seq<Part<T>>, n: nat)
    requires AllValid(ps) && ps != [] && n <= ps[0].Remaining()
    ensures AllValid([Advance(ps[0], n)] + ps[1..])
    ensures Content(ps) == ps[0].Bytes()[..n] + Content([Advance(ps[0], n)] + ps[1..])
  {
    var b := ps[0].Bytes();
    ContentFirst(ps);
    ContentFront(ps[1..], Advance(ps[0], n));
    assert b == b[..n] + b[n..];
    Assoc(b[..n], b[n..], Content(ps[1..]));
  }

  /** Growing the last chunk by `more` grows the content by it. */
  lemma GrowLast<T>(ps: seq<Part<T>>, p: Part<T>, more: seq<T>)
    requires AllValid(ps) && ps != [] && p.Valid() && p.Bytes() == ps[|ps| - 1].Bytes() + more
    ensures AllValid(ps[..|ps| - 1] + [p])
    ensures Content(ps[..|ps| - 1] + [p]) == Content(ps) + more
    ensures |Content(ps[..|ps| - 1] + [p])| == |Content(ps)| + |more|
  {
    ReplaceLast(ps, p);
    Assoc(Content(ps[..|ps| - 1]), ps[|ps| - 1].Bytes(), more);
  }

  lemma GrownMem<T>(p: Part<T>, more: seq<T>)
    requires p.Valid() && p.data.Mem?
    ensures var g := p.(data := Mem(p.data.mem + more)); g.Valid() && g.Bytes() == p.Bytes() + more
  {
  }

  lemma GrownFile<T>(p: Part<T>, more: seq<T>)
    requires p.Valid() && p.data.File? && p.data.isTemp && p.data.isOpen && p.offset == 0
    ensures Longer(p, more).Valid() && Longer(p, more).Bytes() == p.Bytes() + more
  {
  }

  lemma ReplaceLast<T>(ps: seq<Part<T>>, p: Part<T>)
    requires AllValid(ps) && ps != [] && p.Valid()
    ensures AllValid(ps[..|ps| - 1] + [p])
    ensures Content(ps[..|ps| - 1] + [p]) == Content(ps[..|ps| - 1]) + p.Bytes()
    ensures Content(ps) == Content(ps[..|ps| - 1]) + ps[|ps| - 1].Bytes()
  {
    var front, last := ps[..|ps| - 1], ps[|ps| - 1];
    ContentBack(front, p);
    ContentBack(front, last);
    LastOut(ps);
  }

  lemma MergeBytes<T>(a: Part<T>, b: Part<T>, joined: Part<T>)
    requires a.Valid() && b.Valid() && a.data.Mem? && b.data.Mem?
    requires joined == Part(Mem(a.data.mem + b.Bytes()), a.offset)
    ensures joined.Valid() && joined.Bytes() == a.Bytes() + b.Bytes()
  {
  }

  lemma ContentTwo<T>(a: Part<T>, b: Part<T>, tail: seq<Part<T>>)
    requires a.Valid() && b.Valid() && AllValid(tail)
    ensures AllValid([a, b] + tail) && Content([a, b] + tail) == a.Bytes() + b.Bytes() + Content(tail)
  {
    ContentFront(tail, b);
    ContentFront([b] + tail, a);
    assert [a, b] + tail == [a] + ([b] + tail);
  }

  lemma MergeContent<T>(a: Part<T>, b: Part<T>, joined: Part<T>, used: Part<T>, tail: seq<Part<T>>)
    requires a.Valid() && b.Valid() && AllValid(tail) && a.data.Mem? && b.data.Mem?
    requires joined == Part(Mem(a.data.mem + b.Bytes()), a.offset) && used == Part(b.data, b.data.Len())
    ensures AllValid([a, b] + tail) && AllValid([used, joined] + tail)
    ensures Content([used, joined] + tail) == Content([a, b] + tail)
    ensures joined.Remaining() == a.Remaining() + b.Remaining() && used.Remaining() == 0
  {
    MergeBytes(a, b, joined);
    ContentTwo(a, b, tail);
    ContentTwo(used, joined, tail);
    assert used.Bytes() == [];
    assert used.Bytes() + joined.Bytes() == joined.Bytes();
  }

  // ---------- between two queues ----------

  /** Bytes left the front of src for the back of dest, in order. */
  ghost predicate Handed<T>(dest0: seq<T>, src0: seq<T>, dest1: seq<T>, src1: seq<T>, moved: seq<T>) {
    dest1 == dest0 + moved && src0 == moved + src1
  }

  lemma HandedOn<T>(d0: seq<T>, s0: seq<T>, d1: seq<T>, s1: seq<T>, d2: seq<T>, s2: seq<T>, m1: seq<T>, m2: seq<T>)
    requires Handed(d0, s0, d1, s1, m1) && Handed(d1, s1, d2, s2, m2)
    ensures Handed(d0, s0, d2, s2, m1 + m2)
  {
    Assoc(d0, m1, m2);
    Assoc(m1, m2, s2);
  }

  lemma HandedNone<T>(d: seq<T>, s: seq<T>)
    ensures Handed(d, s, d, s, [])
  {
  }

  lemma HandedSome<T>(d: seq<T>, s: seq<T>, n: nat)
    requires n <= |s|
    ensures Handed(d, s, d + s[..n], s[n..], s[..n])
  {
  }

  /** The last step of Steal: nothing more was wanted or nothing is left. */
  lemma HandedAll<T>(d0: seq<T>, s0: seq<T>, d1: seq<T>, s1: seq<T>, moved: seq<T>, len: nat)
    requires Handed(d0, s0, d1, s1, moved) && |moved| <= len && (|moved| == len || s1 == [])
    ensures |moved| == Movable(len, |s0|) && d1 == d0 + s0[..|moved|] && s1 == s0[|moved|..]
  {
    Slices(s0, moved, s1);
  }

  /** How many bytes a request for len bytes moves. */
  function Movable(len: int, available: nat): nat {
    if len <= 0 then 0 else if len <= available then len else available
  }

  // ---------- where the bytes are ----------

  /** q is p, or p is a temporary file that more has been written to, or that has been closed. */
  ghost predicate Grows<T>(p: Part<T>, q: Part<T>) {
    q == p ||
    (StillOpen(p) && q.data.File? && q.data.isTemp && q.offset == 0 && q.data.start == p.data.start &&
     p.data.file <= q.data.file && q.data.length - p.data.length == |q.data.file| - |p.data.file|)
  }

  /** Behind the chunks there were, of which only the last may have grown, there are only files. */
  ghost predicate OnlyFilesAdded<T>(ps: seq<Part<T>>, qs: seq<Part<T>>) {
    && |ps| <= |qs| && (forall i :: 0 <= i < |ps| - 1 ==> qs[i] == ps[i])
    && (ps != [] ==> Grows(ps[|ps| - 1], qs[|ps| - 1]))
    && (forall i :: |ps| <= i < |qs| ==> qs[i].data.File?)
  }

  /** And these are temporary files. */
  ghost predicate OnlyTempsAdded<T>(ps: seq<Part<T>>, qs: seq<Part<T>>) {
    OnlyFilesAdded(ps, qs) && forall i :: |ps| <= i < |qs| ==> qs[i].data.isTemp && qs[i].offset == 0
  }

  lemma OnlyFilesOn<T>(ps: seq<Part<T>>, qs: seq<Part<T>>, rs: seq<Part<T>>)
    requires OnlyFilesAdded(ps, qs) && OnlyFilesAdded(qs, rs)
    ensures OnlyFilesAdded(ps, rs)
    ensures OnlyTempsAdded(ps, qs) && OnlyTempsAdded(qs, rs) ==> OnlyTempsAdded(ps, rs)
  {
  }

  lemma WrittenTemps<T>(ps: seq<Part<T>>, mem: seq<T>, limit: nat)
    ensures OnlyTempsAdded(ps, Grown(Readied(ps, limit), mem))
  {
    var qs := Readied(ps, limit);
    ReadiedTemps(ps, limit);
    GrownTemps(qs, mem);
    OnlyFilesOn(ps, qs, Grown(qs, mem));
  }

  lemma ReadiedTemps<T>(ps: seq<Part<T>>, limit: nat)
    ensures OnlyTempsAdded(ps, Readied(ps, limit))
  {
  }

  lemma GrownTemps<T>(ps: seq<Part<T>>, mem: seq<T>)
    requires Appendable(ps)
    ensures OnlyTempsAdded(ps, Grown(ps, mem))
  {
  }

  /** Storing memory leaves it in temporary files, the tail being one that is still open. */
  lemma {:induction false} StoredInFiles<T>(ps: seq<Part<T>>, mem: seq<T>, limit: nat, writes: seq<nat>)
    ensures Appendable(Stored(ps, mem, limit, writes)) && OnlyTempsAdded(ps, Stored(ps, mem, limit, writes))
    decreases |writes|
  {
    if writes == [] || writes[0] >= |mem| {
      WrittenTemps(ps, mem, limit);
    } else {
      WrittenTemps(ps, mem[..writes[0]], limit);
      var qs := Grown(Readied(ps, limit), mem[..writes[0]]);
      StoredInFiles(qs, mem[writes[0]..], limit, writes[1..]);
      OnlyFilesOn(ps, qs, Stored(ps, mem, limit, writes));
    }
  }

  lemma ReadiedContent<T>(ps: seq<Part<T>>, limit: nat)
    requires AllValid(ps)
    ensures AllValid(Readied(ps, limit)) && Content(Readied(ps, limit)) == Content(ps)
  {
    var t: Part<T> := Temp();
    assert t.Bytes() == [];
    if Appendable(ps) && ps[|ps| - 1].data.length >= limit {
      var p := ps[|ps| - 1];
      assert p.Valid() && Shut(p).Bytes() == p.Bytes();
      ReplaceLast(ps, Shut(p));
      TailUpdate(ps, Shut(p));
      ContentBack(ps[|ps| - 1 := Shut(p)], t);
      Nothing(Content(ps));
    } else if !Appendable(ps) {
      ContentBack(ps, t);
      Nothing(Content(ps));
    }
  }

  lemma GrownContent<T>(ps: seq<Part<T>>, mem: seq<T>)
    requires AllValid(ps) && Appendable(ps)
    ensures AllValid(Grown(ps, mem)) && Content(Grown(ps, mem)) == Content(ps) + mem
  {
    GrownFile(ps[|ps| - 1], mem);
    GrowLast(ps, Longer(ps[|ps| - 1], mem), mem);
  }

  /** What is stored is behind what was there. */
  lemma {:induction false} StoredContent<T>(ps: seq<Part<T>>, mem: seq<T>, limit: nat, writes: seq<nat>)
    requires AllValid(ps)
    ensures AllValid(Stored(ps, mem, limit, writes)) && Content(Stored(ps, mem, limit, writes)) == Content(ps) + mem
    decreases |writes|
  {
    ReadiedContent(ps, limit);
    var qs := Readied(ps, limit);
    if writes == [] || writes[0] >= |mem| {
      GrownContent(qs, mem);
    } else {
      var k := writes[0];
      GrownContent(qs, mem[..k]);
      StoredContent(Grown(qs, mem[..k]), mem[k..], limit, writes[1..]);
      Cut(mem, k);
      Assoc(Content(ps), mem[..k], mem[k..]);
    }
  }

  // ---------- two queues ----------

  /** Two queues that share no chunk. */
  ghost predicate Apart<T>(q: Queue<T>, r: Queue<T>)
    reads q`live, q`spare, r`live, r`spare
  {
    q != r && q.Nodes() !! r.Nodes()
  }

  /** The contents and counters of two queues. */
  datatype Books<T> = Books(dest: seq<T>, src: seq<T>, destIn: int, destOut: int, srcIn: int, srcOut: int)

  ghost function BooksOf<T>(dest: Queue<T>, src: Queue<T>): Books<T>
    requires AllValid(dest.chunks) && AllValid(src.chunks)
    reads dest`chunks, dest`bytesIn, dest`bytesOut, src`chunks, src`bytesIn, src`bytesOut
  {
    Books(Content(dest.chunks), Content(src.chunks), dest.bytesIn, dest.bytesOut, src.bytesIn, src.bytesOut)
  }

  /** Bytes have been handed on, and the counters say so. */
  ghost predicate Shifted<T>(a: Books<T>, b: Books<T>, moved: seq<T>) {
    match (a, b)
    case (Books(d0, s0, din, dout, sin, sout), Books(d1, s1, din', dout', sin', sout')) =>
      && Handed(d0, s0, d1, s1, moved)
      && din' == din + |moved| && dout' == dout && sin' == sin && sout' == sout + |moved|
  }

  lemma ShiftedOn<T>(a: Books<T>, b: Books<T>, c: Books<T>, m1: seq<T>, m2: seq<T>)
    requires Shifted(a, b, m1) && Shifted(b, c, m2)
    ensures Shifted(a, c, m1 + m2)
  {
    HandedOn(a.dest, a.src, b.dest, b.src, c.dest, c.src, m1, m2);
  }

  /** The first n bytes of src, and no others, have gone to the end of dest. */
  ghost predicate TookFirst<T>(a: Books<T>, b: Books<T>, n: nat) {
    && n <= |a.src| && b.dest == a.dest + a.src[..n] && b.src == a.src[n..]
    && b.destIn == a.destIn + n && b.destOut == a.destOut && b.srcIn == a.srcIn && b.srcOut == a.srcOut + n
  }

  lemma TookNone<T>(a: Books<T>)
    ensures Shifted(a, a, []) && TookFirst(a, a, 0)
  {
    HandedNone(a.dest, a.src);
    Nothing(a.dest);
  }

  lemma TookAll<T>(a: Books<T>, b: Books<T>, moved: seq<T>, len: nat)
    requires Shifted(a, b, moved) && |moved| <= len && (|moved| == len || b.src == [])
    ensures |moved| == Movable(len, |a.src|) && TookFirst(a, b, |moved|)
  {
    HandedAll(a.dest, a.src, b.dest, b.src, moved, len);
  }

  /** The chunks of both queues were theirs before, or are new. */
  twostate predicate Kept<T>(q: Queue<T>, r: Queue<T>)
    reads q`live, q`spare, r`live, r`spare
  {
    && (forall n :: n in q.Nodes() ==> n in old(q.Nodes()) || n in old(r.Nodes()) || fresh(n))
    && (forall n :: n in r.Nodes() ==> n in old(q.Nodes()) || n in old(r.Nodes()) || fresh(n))
  }

  /** The chunks that have something left. */
  function NonEmpty<T>(ps: seq<Part<T>>): seq<Part<T>>
    requires AllValid(ps)
  {
    if ps == [] then []
    else
      var n := |ps| - 1;
      assert ps[n].Valid();
      NonEmpty(ps[..n]) + if ps[n].Remaining() > 0 then [ps[n]] else []
  }

  /**
   The first k chunks of s0, as far as they are not empty, are now behind those of d0, and n bytes of
   the next one.
   */
  ghost predicate TransferredAt<T>(d0: seq<Part<T>>, s0: seq<Part<T>>, d1: seq<Part<T>>, s1: seq<Part<T>>, k: nat,
                                   n: nat) {
    match (d1, s1)
    case (d, s) =>
      AllValid(s0) && k <= |s0| &&
      if n == 0 then d == d0 + NonEmpty(s0[..k]) && s == s0[k..]
      else && k < |s0| && s0[k].Valid() && n < s0[k].Remaining()
           && d == d0 + NonEmpty(s0[..k]) + [Piece(s0[k], n)] && s == [Advance(s0[k], n)] + s0[k + 1..]
  }

  ghost predicate Transferred<T>(d0: seq<Part<T>>, s0: seq<Part<T>>, d1: seq<Part<T>>, s1: seq<Part<T>>) {
    exists k: nat, n: nat :: TransferredAt(d0, s0, d1, s1, k, n)
  }

  /**
   One turn: an empty chunk is dropped, a whole one goes over as it is, and one that is more than is
   wanted is split.
   */
  ghost predicate Turned<T>(d0: seq<Part<T>>, s0: seq<Part<T>>, d1: seq<Part<T>>, s1: seq<Part<T>>, len: nat,
                            use: nat) {
    match (d1, s1)
    case (d, s) =>
      s0 != [] && s0[0].Valid() &&
      if s0[0].Remaining() == 0 then use == 0 && d == d0 && s == s0[1..]
      else if len >= s0[0].Remaining() then use == s0[0].Remaining() && d == d0 + [s0[0]] && s == s0[1..]
      else use == len && d == d0 + [Piece(s0[0], len)] && s == [Advance(s0[0], len)] + s0[1..]
  }

  /** The same where memory goes to temporary files. */
  ghost predicate TurnedToFiles<T>(d0: seq<Part<T>>, s0: seq<Part<T>>, d1: seq<Part<T>>, s1: seq<Part<T>>, len: nat,
                                   use: nat, limit: nat, writes: seq<nat>) {
    match (d1, s1)
    case (d, s) =>
      AllValid(s0) && s0 != [] && s0[0].Valid() &&
      if s0[0].Remaining() == 0 || s0[0].data.File? then Turned(d0, s0, d, s, len, use)
      else && use == (if len >= s0[0].Remaining() then s0[0].Remaining() else len)
           && d == Stored(d0, s0[0].Bytes()[..use], limit, writes) && s == Consumed(s0, use)
  }

  lemma NonEmptyNext<T>(ps: seq<Part<T>>, k: nat)
    requires AllValid(ps) && k < |ps|
    ensures ps[k].Valid() && NonEmpty(ps[..k + 1]) == NonEmpty(ps[..k]) + if ps[k].Remaining() > 0 then [ps[k]] else []
  {
    TakeTake(ps, k + 1, k);
  }

  /** A turn after whole ones: one chunk more has gone over, or a part of one. */
  lemma TransferredOn<T>(d0: seq<Part<T>>, s0: seq<Part<T>>, d1: seq<Part<T>>, s1: seq<Part<T>>,
                         d2: seq<Part<T>>, s2: seq<Part<T>>, k: nat, len: nat, use: nat)
    requires TransferredAt(d0, s0, d1, s1, k, 0) && Turned(d1, s1, d2, s2, len, use) && len > 0
    ensures k < |s0|
    ensures use < len ==> TransferredAt(d0, s0, d2, s2, k + 1, 0)
    ensures use == len ==> TransferredAt(d0, s0, d2, s2, k + 1, 0) || TransferredAt(d0, s0, d2, s2, k, use)
  {
    Shift(s0, k);
    NonEmptyNext(s0, k);
    Assoc(d0, NonEmpty(s0[..k]), if s0[k].Remaining() > 0 then [s0[k]] else []);
    Nothing(d0 + NonEmpty(s0[..k]));
  }

  lemma TakenAtOn<T>(s0: seq<Part<T>>, d1: seq<Part<T>>, s1: seq<Part<T>>, d2: seq<Part<T>>, s2: seq<Part<T>>, k: nat,
                     len: nat, use: nat, limit: nat, writes: seq<nat>)
    requires TakenAt(s0, s1, k, 0) && TurnedToFiles(d1, s1, d2, s2, len, use, limit, writes) && len > 0
    ensures k < |s0|
    ensures use < len ==> TakenAt(s0, s2, k + 1, 0)
    ensures use == len ==> TakenAt(s0, s2, k + 1, 0) || TakenAt(s0, s2, k, use)
  {
    Shift(s0, k);
    if s1[0].Remaining() > 0 && s1[0].data.Mem? && use < s1[0].Remaining() { HeadUpdate(s1, Advance(s1[0], use)); }
  }

  /** A turn adds nothing to dest but files. */
  lemma TurnedInFiles<T>(d0: seq<Part<T>>, s0: seq<Part<T>>, d1: seq<Part<T>>, s1: seq<Part<T>>, len: nat, use: nat,
                         limit: nat, writes: seq<nat>)
    requires TurnedToFiles(d0, s0, d1, s1, len, use, limit, writes)
    ensures OnlyFilesAdded(d0, d1)
  {
    if s0[0].Remaining() > 0 && s0[0].data.Mem? { StoredInFiles(d0, s0[0].Bytes()[..use], limit, writes); }
  }

  lemma TurnedOn<T>(ps: seq<Part<T>>, d0: seq<Part<T>>, s0: seq<Part<T>>, d1: seq<Part<T>>, s1: seq<Part<T>>, len: nat,
                    use: nat, limit: nat, writes: seq<nat>)
    requires OnlyFilesAdded(ps, d0) && TurnedToFiles(d0, s0, d1, s1, len, use, limit, writes)
    ensures OnlyFilesAdded(ps, d1)
  {
    TurnedInFiles(d0, s0, d1, s1, len, use, limit, writes);
    OnlyFilesOn(ps, d0, d1);
  }

  /** Moves all chunks of one queue behind those of another, by linking the lists. */
  method AppendQueue<T>(q: Queue<T>, src: Queue<T>)
    requires q.Valid() && src.Valid() && Apart(q, src)
    modifies q, src, q.Nodes(), src.Nodes()
    ensures q.Valid() && src.Valid() && Apart(q, src) && Kept(q, src) && src.chunks == []
    ensures Shifted(old(BooksOf(q, src)), BooksOf(q, src), old(src.Bytes())) && q.chunks == old(q.chunks + src.chunks)
  {
    src.Ends();
    AllHanded(q.chunks, src.chunks);
    if src.first == null { return; }
    q.bytesIn := q.bytesIn + (src.bytesIn - src.bytesOut);
    src.bytesOut := src.bytesIn;
    Relink(q, src);
  }

  lemma AllHanded<T>(d: seq<Part<T>>, s: seq<Part<T>>)
    requires AllValid(d) && AllValid(s)
    ensures AllValid(d + s) && Handed(Content(d), Content(s), Content(d + s), [], Content(s))
    ensures |Content(d + s)| == |Content(d)| + |Content(s)|
    ensures s == [] ==> d + s == d && Content(s) == []
  {
    ContentConcat(d, s);
    Nothing(Content(s));
  }

  method Relink<T>(q: Queue<T>, src: Queue<T>)
    requires q.Lists() && src.Lists() && Apart(q, src) && src.first != null
    modifies q`first, q`last, q`live, q`chunks, q.live.own`next
    modifies src`first, src`last, src`live, src`chunks
    ensures q.Lists() && src.Lists() && Apart(q, src) && src.chunks == [] && q.chunks == old(q.chunks + src.chunks)
    ensures Kept(q, src)
  {
    q.LinkList(src.first, src.last, src.live, src.chunks);
    src.Detach();
  }

  /** The first chunk of src becomes the last of dest. */
  method MoveFirst<T>(dest: Queue<T>, src: Queue<T>)
    requires dest.Lists() && src.Lists() && Apart(dest, src) && src.first != null
    modifies dest`first, dest`last, dest`live, dest`chunks, dest.live.own`next
    modifies src`first, src`last, src`live, src`chunks, src.live.own`next
    ensures dest.Lists() && src.Lists() && Apart(dest, src) && Kept(dest, src)
    ensures old(src.chunks) != [] && dest.chunks == old(dest.chunks) + [old(src.chunks)[0]] &&
      src.chunks == old(src.chunks)[1..]
  {
    src.Ends();
    var c := src.UnlinkFirst();
    dest.LinkLast(c);
  }

  lemma WholeHanded<T>(d: seq<Part<T>>, s: seq<Part<T>>)
    requires AllValid(d) && AllValid(s) && s != []
    ensures AllValid(d + [s[0]]) && AllValid(s[1..])
    ensures Handed(Content(d), Content(s), Content(d + [s[0]]), Content(s[1..]), s[0].Bytes())
    ensures |Content(d + [s[0]])| == |Content(d)| + s[0].Remaining() &&
      |Content(s)| == s[0].Remaining() + |Content(s[1..])|
  {
    ContentFirst(s);
    ContentBack(d, s[0]);
  }

  /** Moves the first chunk with all its bytes. */
  method StealWhole<T>(dest: Queue<T>, src: Queue<T>) returns (use: nat, ghost moved: seq<T>)
    requires dest.Valid() && src.Valid() && Apart(dest, src) && src.first != null && src.first.data.Valid()
    modifies dest, src, dest.Nodes(), src.Nodes()
    ensures dest.Valid() && src.Valid() && Apart(dest, src) && Kept(dest, src)
    ensures use == |moved| == old(src.first.data.Remaining())
    ensures Shifted(old(BooksOf(dest, src)), BooksOf(dest, src), moved)
    ensures old(src.chunks) != [] && dest.chunks == old(dest.chunks) + [old(src.chunks)[0]]
    ensures src.chunks == old(src.chunks)[1..]
  {
    src.Ends();
    WholeHanded(dest.chunks, src.chunks);
    use, moved := src.first.data.Remaining(), src.first.data.Bytes();
    dest.bytesIn := dest.bytesIn + use;
    src.bytesOut := src.bytesOut + use;
    MoveFirst(dest, src);
  }

  /** Splits `use` bytes off the first chunk for dest. */
  method StealPart<T>(dest: Queue<T>, src: Queue<T>, use: nat) returns (ghost moved: seq<T>)
    requires dest.Valid() && src.Valid() && Apart(dest, src)
    requires src.first != null && src.first.data.Valid() && 0 < use <= src.first.data.Remaining()
    modifies dest, src, dest.Nodes(), src.Nodes()
    ensures dest.Valid() && src.Valid() && Apart(dest, src) && Kept(dest, src) && use == |moved|
    ensures Shifted(old(BooksOf(dest, src)), BooksOf(dest, src), moved)
    ensures old(src.chunks) != [] && old(src.chunks)[0].Valid() && use <= old(src.chunks)[0].Remaining()
    ensures dest.chunks == old(dest.chunks) + [Piece(old(src.chunks)[0], use)]
    ensures src.chunks == old(src.chunks)[0 := Advance(old(src.chunks)[0], use)]
  {
    src.Ends();
    var p := src.first.data;
    moved := p.Bytes()[..use];
    dest.AppendFront(p, use);
    src.AdvanceFirst(use);
    src.bytesOut := src.bytesOut + use;
  }

  /** One turn of Steal: drops, moves or splits the first chunk. */
  method StealFirst<T>(dest: Queue<T>, src: Queue<T>, len: nat) returns (use: nat, ghost moved: seq<T>)
    requires dest.Valid() && src.Valid() && Apart(dest, src) && src.first != null && len > 0
    modifies dest, src, dest.Nodes(), src.Nodes()
    ensures dest.Valid() && src.Valid() && Apart(dest, src) && Kept(dest, src) && use == |moved| <= len
    ensures Shifted(old(BooksOf(dest, src)), BooksOf(dest, src), moved)
    ensures Turned(old(dest.chunks), old(src.chunks), dest.chunks, src.chunks, len, use)
    ensures |src.chunks| + len - use < old(|src.chunks|) + len
  {
    src.Ends();
    ghost var was := src.chunks;
    var n := src.first.data.Remaining();
    if n == 0 {
      src.DropFirst();
      HandedNone(dest.Bytes(), src.Bytes());
      return 0, [];
    }
    use := if len >= n then n else len;
    if use == n {
      use, moved := StealWhole(dest, src);
    } else {
      moved := StealPart(dest, src, use);
      HeadUpdate(was, Advance(was[0], use));
    }
  }

  /** Writes the next bytes of the first chunk, which is memory, to a temporary file of dest. */
  method StealMemory<T>(dest: Queue<T>, src: Queue<T>, use: nat, limit: nat, writes: seq<nat>)
    returns (later: seq<nat>, ghost moved: seq<T>)
    requires dest.Valid() && src.Valid() && Apart(dest, src) && src.first != null
    requires src.first.data.Valid() && src.first.data.data.Mem? && 0 < use <= src.first.data.Remaining()
    modifies dest, src, dest.Nodes(), src.Nodes()
    ensures dest.Valid() && src.Valid() && Apart(dest, src) && Kept(dest, src) && later == WritesLeft(use, writes)
    ensures use == |moved| && old(src.chunks) != [] && old(src.chunks)[0].Valid() &&
      use <= old(src.chunks)[0].Remaining()
    ensures Shifted(old(BooksOf(dest, src)), BooksOf(dest, src), moved) && moved == old(src.chunks)[0].Bytes()[..use]
    ensures dest.chunks == Stored(old(dest.chunks), moved, limit, writes) &&
      src.chunks == Consumed(old(src.chunks), use)
  {
    src.Ends();
    var p := src.first.data;
    FrontMem(p, use);
    moved := p.Bytes()[..use];
    later := Divert(dest, src, p.data.mem[p.offset..p.offset + use], use, limit, writes);
  }

  /** Memory goes to temporary files of dest, and as much is taken off the first chunk of src. */
  method Divert<T>(dest: Queue<T>, src: Queue<T>, mem: seq<T>, use: nat, limit: nat, writes: seq<nat>)
    returns (later: seq<nat>)
    requires dest.Valid() && src.Valid() && Apart(dest, src) && src.first != null && |mem| == use
    requires src.first.data.Valid() && 0 < use <= src.first.data.Remaining() && mem == src.first.data.Bytes()[..use]
    modifies dest, src, dest.Nodes(), src.Nodes()
    ensures dest.Valid() && src.Valid() && Apart(dest, src) && Kept(dest, src) && later == WritesLeft(use, writes)
    ensures old(src.chunks) != [] && old(src.chunks)[0].Valid() && old(src.first.data) == old(src.chunks)[0]
    ensures Shifted(old(BooksOf(dest, src)), BooksOf(dest, src), mem)
    ensures dest.chunks == Stored(old(dest.chunks), mem, limit, writes) && src.chunks == Consumed(old(src.chunks), use)
  {
    src.Ends();
    later := StoreBeside(dest, src, mem, limit, writes);
    src.Consume(use);
  }

  /** Storing in one queue leaves the other as it is. */
  method StoreBeside<T>(dest: Queue<T>, src: Queue<T>, mem: seq<T>, limit: nat, writes: seq<nat>)
    returns (later: seq<nat>)
    requires dest.Valid() && src.Valid() && Apart(dest, src)
    modifies dest, dest.Nodes()
    ensures dest.Valid() && src.Valid() && Apart(dest, src) && src.Nodes() == old(src.Nodes())
    ensures forall n :: n in dest.Nodes() ==> n in old(dest.Nodes()) || fresh(n)
    ensures dest.Bytes() == old(dest.Bytes()) + mem && src.Bytes() == old(src.Bytes())
    ensures dest.bytesIn == old(dest.bytesIn) + |mem| && dest.bytesOut == old(dest.bytesOut)
    ensures dest.chunks == Stored(old(dest.chunks), mem, limit, writes) && later == WritesLeft(|mem|, writes)
  {
    later := dest.StoreMem(mem, limit, writes);
  }

  /** One turn of StealWithTempfiles: memory goes through a temporary file. */
  method StealFirstToTempfile<T>(dest: Queue<T>, src: Queue<T>, len: nat, limit: nat, writes: seq<nat>)
    returns (use: nat, later: seq<nat>, ghost moved: seq<T>)
    requires dest.Valid() && src.Valid() && Apart(dest, src) && src.first != null && len > 0
    modifies dest, src, dest.Nodes(), src.Nodes()
    ensures dest.Valid() && src.Valid() && Apart(dest, src) && Kept(dest, src) && use == |moved| <= len
    ensures Shifted(old(BooksOf(dest, src)), BooksOf(dest, src), moved)
    ensures TurnedToFiles(old(dest.chunks), old(src.chunks), dest.chunks, src.chunks, len, use, limit, writes)
    ensures later == if old(src.chunks[0].Remaining() > 0 && src.chunks[0].data.Mem?)
      then WritesLeft(use, writes) else writes
    ensures |src.chunks| + len - use < old(|src.chunks|) + len
  {
    later := writes;
    src.Ends();
    var p := src.first.data;
    if p.Remaining() == 0 || p.data.File? {
      use, moved := StealFirst(dest, src, len);
    } else {
      use := if len >= p.Remaining() then p.Remaining() else len;
      later, moved := StealMemory(dest, src, use, limit, writes);
    }
  }

  /** Moves exactly the first min(len, available) bytes, in order. */
  method Steal<T>(dest: Queue<T>, src: Queue<T>, len: int)
    requires dest.Valid() && src.Valid() && Apart(dest, src)
    modifies dest, src, dest.Nodes(), src.Nodes()
    ensures dest.Valid() && src.Valid() && Apart(dest, src) && Kept(dest, src)
    ensures TookFirst(old(BooksOf(dest, src)), BooksOf(dest, src), Movable(len, old(|src.Bytes()|)))
    ensures Transferred(old(dest.chunks), old(src.chunks), dest.chunks, src.chunks)
  {
    ghost var b0, d0, s0, k := BooksOf(dest, src), dest.chunks, src.chunks, 0;
    TookNone(b0);
    Nothing(d0);
    assert TransferredAt(d0, s0, dest.chunks, src.chunks, 0, 0);
    if len <= 0 { return; }
    var left: nat := len;
    ghost var moved: seq<T> := [];
    while left > 0 && src.first != null
      invariant dest.Valid() && src.Valid() && Apart(dest, src) && Kept(dest, src) && |moved| + left == len
      invariant Shifted(b0, BooksOf(dest, src), moved)
      invariant Transferred(d0, s0, dest.chunks, src.chunks)
      invariant left > 0 ==> TransferredAt(d0, s0, dest.chunks, src.chunks, k, 0)
      decreases |src.chunks| + left
    {
      ghost var b1, d1, s1 := BooksOf(dest, src), dest.chunks, src.chunks;
      var use, more := StealFirst(dest, src, left);
      ShiftedOn(b0, b1, BooksOf(dest, src), moved, more);
      TransferredOn(d0, s0, d1, s1, dest.chunks, src.chunks, k, left, use);
      k := k + 1;
      left, moved := left - use, moved + more;
    }
    src.Ends();
    TookAll(b0, BooksOf(dest, src), moved, len);
  }

  /** Agrees with Steal on contents and counters, whatever the writes accept at a time. */
  method StealWithTempfiles<T>(dest: Queue<T>, src: Queue<T>, len: int, limit: nat, writes: seq<nat>)
    requires dest.Valid() && src.Valid() && Apart(dest, src)
    modifies dest, src, dest.Nodes(), src.Nodes()
    ensures dest.Valid() && src.Valid() && Apart(dest, src) && Kept(dest, src)
    ensures TookFirst(old(BooksOf(dest, src)), BooksOf(dest, src), Movable(len, old(|src.Bytes()|)))
    ensures OnlyFilesAdded(old(dest.chunks), dest.chunks)
    ensures FrontTaken(old(src.chunks), src.chunks)
  {
    ghost var b0, d0, s0, k := BooksOf(dest, src), dest.chunks, src.chunks, 0;
    TookNone(b0);
    assert TakenAt(s0, src.chunks, 0, 0);
    if len <= 0 { return; }
    var left: nat, script := len, writes;
    ghost var moved: seq<T> := [];
    while left > 0 && src.first != null
      invariant dest.Valid() && src.Valid() && Apart(dest, src) && Kept(dest, src) && |moved| + left == len
      invariant Shifted(b0, BooksOf(dest, src), moved) && OnlyFilesAdded(d0, dest.chunks)
      invariant FrontTaken(s0, src.chunks)
      invariant left > 0 ==> TakenAt(s0, src.chunks, k, 0)
      decreases |src.chunks| + left
    {
      ghost var b1, d1, s1 := BooksOf(dest, src), dest.chunks, src.chunks;
      var use, later, more := StealFirstToTempfile(dest, src, left, limit, script);
      ShiftedOn(b0, b1, BooksOf(dest, src), moved, more);
      TurnedOn(d0, d1, s1, dest.chunks, src.chunks, left, use, limit, script);
      TakenAtOn(s0, d1, s1, dest.chunks, src.chunks, k, left, use, limit, script);
      k := k + 1;
      left, moved, script := left - use, moved + more, later;
    }
    src.Ends();
    TookAll(b0, BooksOf(dest, src), moved, len);
  }
}
